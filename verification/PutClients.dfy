// Clients racing to put to one fresh key over the Clerk, and the accounting the test checks:
// the server's version against the clients' counts of OK and ErrMaybe.

module PutClients {
  import opened KvTypes
  import opened KvSystem
  import opened KvView

  const K := "k"

  // Where a client is in one put-until-it-lands: about to put at version ver, putting, about
  // to read back after the put's error, reading back, or stopped by a fatal error. hit records
  // whether the put was applied; the program does not look at it.
  datatype Pc =
    | Ready(top: bool)
    | Putting
    | Check(err: Err, hit: bool)
    | Reading(err: Err, hit: bool)
    | Failed

  // ver is the version the next put uses. applied counts the ErrMaybes whose put was applied.
  datatype Prog = Prog(pc: Pc, ver: nat, nok: nat, nmay: nat, applied: nat)

  datatype Sys = Sys(kv: State, progs: seq<Prog>)

  predicate Wants(p: Prog, c: nat, input: Input) {
    match p.pc
    case Ready(_) => input == Put(K, Stamp(c, p.ver), p.ver)
    case Check(_, _) => input == Get(K)
    case _ => false
  }

  function Invoked(p: Prog): Prog {
    match p.pc
    case Ready(_) => p.(pc := Putting)
    case Check(err, hit) => p.(pc := Reading(err, hit))
    case _ => p
  }

  // A put's error other than OK, ErrVersion and ErrMaybe stops the test; so does a failed read,
  // or reading someone else's value where the client's own must be.
  function Returned(p: Prog, c: nat, landed: bool, r: Reply): Prog {
    match p.pc
    case Putting => if r.err == ErrNoKey then p.(pc := Failed) else p.(pc := Check(r.err, landed))
    case Reading(err, hit) =>
      if r.err != OK || !r.value.Stamp? then p.(pc := Failed)
      else if err == OK && r.version == p.ver + 1 && r.value.id != c && r.value.v != p.ver then p.(pc := Failed)
      else if err == OK then Prog(Ready(true), r.version, p.nok + 1, p.nmay, p.applied)
      else if err == ErrMaybe then Prog(Ready(true), r.version, p.nok, p.nmay + 1, p.applied + if hit then 1 else 0)
      else p.(pc := Ready(false), ver := r.version)
    case _ => p
  }

  ghost function Landed(s: Sys, c: nat): bool
    requires c < |s.kv.phase|
  {
    var view := ViewOf(s.kv, c);
    !view.Free? && view.landed
  }

  // A reliable network loses nothing.
  ghost predicate Step(s: Sys, a: Action, reliable: bool, t: Sys) {
    && |s.progs| == |s.kv.phase|
    && Enabled(s.kv, a)
    && (reliable ==> !Lossy(a))
    && t.kv == Next(s.kv, a)
    && match a
       case Invoke(c, input) => Wants(s.progs[c], c, input) && t.progs == s.progs[c := Invoked(s.progs[c])]
       case Return(c) => t.progs == s.progs[c := Returned(s.progs[c], c, Landed(s, c), Result(s.kv, c))]
       case _ => t.progs == s.progs
  }

  // The key is absent, no call is under way, and no client has begun.
  ghost predicate Start(s: Sys) {
    && Reachable(s.kv)
    && K !in s.kv.server.data
    && |s.progs| == |s.kv.phase|
    && forall c :: 0 <= c < |s.progs| ==> s.kv.phase[c] == Idle && s.progs[c] == Prog(Ready(true), 0, 0, 0, 0)
  }

  ghost predicate Run(states: seq<Sys>, actions: seq<Action>, reliable: bool) {
    && |states| == |actions| + 1
    && Start(states[0])
    && forall i :: 0 <= i < |actions| ==> Step(states[i], actions[i], reliable, states[i + 1])
  }

  ghost predicate Finished(s: Sys) {
    forall c :: 0 <= c < |s.progs| ==> s.progs[c].pc == Ready(true)
  }

  // ----- The invariant -----

  // The applied writes of one client: those it has counted, and the one it may be busy with.
  function Writes(p: Prog, view: View): nat {
    p.nok + p.applied +
    match p.pc
    case Putting => if !view.Free? && view.landed then 1 else 0
    case Check(_, hit) => if hit then 1 else 0
    case Reading(_, hit) => if hit then 1 else 0
    case _ => 0
  }

  ghost function TotalWrites(s: Sys, n: nat): nat
    requires n <= |s.progs| == |s.kv.phase|
  {
    if n == 0 then 0 else TotalWrites(s, n - 1) + Writes(s.progs[n - 1], ViewOf(s.kv, n - 1))
  }

  ghost predicate KeyInv(server: Server) {
    K in server.data ==> server.data[K].Stamp? && server.data[K].v + 1 == server.Version(K)
  }

  // A read that answered saw a write, stamped with the version below the one it made.
  predicate GoodRead(r: Reply) {
    r.err == OK && r.value.Stamp? && r.value.v + 1 == r.version
  }

  // err and hit agree: an OK put was applied and an ErrVersion put was not.
  predicate Agrees(err: Err, hit: bool) {
    (err == OK && hit) || (err == ErrVersion && !hit) || err == ErrMaybe
  }

  ghost predicate ClientInv(p: Prog, c: nat, view: View, present: bool, reliable: bool) {
    && p.applied <= p.nmay
    && (p.ver != 0 ==> present)
    && (reliable ==> p.nmay == 0 && (!view.Free? ==> view.first))
    && match p.pc
       case Ready(_) => view == Free
       case Putting =>
         !view.Free? && view.input == Put(K, Stamp(c, p.ver), p.ver)
         && (view.Told? ==> present && (view.reply.err == OK || view.reply.err == ErrVersion))
       case Check(err, hit) => view == Free && present && Agrees(err, hit) && (reliable ==> err != ErrMaybe)
       case Reading(err, hit) =>
         !view.Free? && view.input == Get(K) && present && Agrees(err, hit) && (reliable ==> err != ErrMaybe)
         && (view.Told? ==> GoodRead(view.reply))
       case Failed => false
  }

  ghost predicate PutInv(s: Sys, reliable: bool) {
    && KvSystem.Inv(s.kv)
    && |s.progs| == |s.kv.phase|
    && s.kv.server.Valid()
    && KeyInv(s.kv.server)
    && s.kv.server.Version(K) == TotalWrites(s, |s.progs|)
    && forall c :: 0 <= c < |s.progs| ==>
         ClientInv(s.progs[c], c, ViewOf(s.kv, c), K in s.kv.server.data, reliable)
  }

  lemma {:induction false} NoWrites(s: Sys, n: nat)
    requires n <= |s.progs| == |s.kv.phase|
    requires forall c :: 0 <= c < |s.progs| ==> Writes(s.progs[c], ViewOf(s.kv, c)) == 0
    ensures TotalWrites(s, n) == 0
  {
    if n > 0 { NoWrites(s, n - 1); }
  }

  // Only client c's count changes.
  lemma {:induction false} OneWriter(s: Sys, t: Sys, c: nat, n: nat)
    requires n <= |s.progs| == |s.kv.phase| == |t.progs| == |t.kv.phase| && c < |s.progs|
    requires forall d :: 0 <= d < |s.progs| && d != c ==>
      Writes(t.progs[d], ViewOf(t.kv, d)) == Writes(s.progs[d], ViewOf(s.kv, d))
    ensures TotalWrites(t, n) - TotalWrites(s, n) ==
      if c < n then Writes(t.progs[c], ViewOf(t.kv, c)) - Writes(s.progs[c], ViewOf(s.kv, c)) else 0
  {
    if n > 0 { OneWriter(s, t, c, n - 1); }
  }

  lemma StartInv(s: Sys, reliable: bool)
    requires Start(s)
    ensures PutInv(s, reliable)
  {
    ReachableInv(s.kv);
    NoWrites(s, |s.progs|);
  }

  // The acting client's step keeps its invariant, and its count of applied writes rises by one
  // exactly when the server's version does.
  lemma ClientStep(p: Prog, c: nat, before: View, a: Action, server: Server, after: View, server': Server,
                   result: Reply, reliable: bool)
    requires server.Valid() && KeyInv(server)
    requires ClientInv(p, c, before, K in server.data, reliable)
    requires ViewStep(before, a, server, after, server', result)
    requires (reliable ==> !Lossy(a)) && (a.Invoke? ==> Wants(p, c, a.input))
    ensures var p' := if a.Invoke? then Invoked(p)
                      else if a.Return? then Returned(p, c, !before.Free? && before.landed, result) else p;
      && ClientInv(p', c, after, K in server'.data, reliable)
      && server'.Version(K) - server.Version(K) == Writes(p', after) - Writes(p, before)
    ensures KeyInv(server') && server'.Valid() && (K in server.data ==> K in server'.data)
  {
  }

  lemma StepInv(s: Sys, a: Action, reliable: bool, t: Sys)
    requires PutInv(s, reliable) && Step(s, a, reliable, t)
    ensures PutInv(t, reliable)
  {
    NextInv(s.kv, a);
    var result := NextView(s.kv, a);
    var c := a.c;
    assert ClientInv(s.progs[c], c, ViewOf(s.kv, c), K in s.kv.server.data, reliable);
    ClientStep(s.progs[c], c, ViewOf(s.kv, c), a, s.kv.server, ViewOf(t.kv, c), t.kv.server, result, reliable);
    forall d | 0 <= d < |t.progs|
      ensures ClientInv(t.progs[d], d, ViewOf(t.kv, d), K in t.kv.server.data, reliable)
    {
      if d != c { assert ClientInv(s.progs[d], d, ViewOf(s.kv, d), K in s.kv.server.data, reliable); }
    }
    OneWriter(s, t, c, |s.progs|);
  }

  lemma {:induction false} RunInv(states: seq<Sys>, actions: seq<Action>, reliable: bool, i: nat)
    requires Run(states, actions, reliable) && i <= |actions|
    ensures PutInv(states[i], reliable)
  {
    if i == 0 {
      StartInv(states[0], reliable);
    } else {
      RunInv(states, actions, reliable, i - 1);
      StepInv(states[i - 1], actions[i - 1], reliable, states[i]);
    }
  }

  // ----- A client reads its own write -----

  // The server has seen c's write at this version, and has its value while it has its version.
  ghost predicate Wrote(server: Server, c: nat, ver: nat) {
    && server.Version(K) > ver
    && (server.Version(K) == ver + 1 ==> server.Value(K) == Stamp(c, ver))
  }

  ghost predicate OwnWrite(p: Prog, c: nat, view: View, server: Server) {
    match p.pc
    case Putting => !view.Free? && view.landed ==> Wrote(server, c, p.ver)
    case Check(_, hit) => hit ==> Wrote(server, c, p.ver)
    case Reading(_, hit) =>
      hit ==>
        && Wrote(server, c, p.ver)
        && (view.Told? && view.reply.version == p.ver + 1 ==> view.reply.value == Stamp(c, p.ver))
    case _ => true
  }

  ghost predicate StampInv(s: Sys, reliable: bool) {
    PutInv(s, reliable) && forall c :: 0 <= c < |s.progs| ==> OwnWrite(s.progs[c], c, ViewOf(s.kv, c), s.kv.server)
  }

  // The acting client's own step; the server's value changes only with its version.
  lemma ClientStamp(p: Prog, c: nat, before: View, a: Action, server: Server, after: View, server': Server,
                    result: Reply, reliable: bool)
    requires server.Valid() && ClientInv(p, c, before, K in server.data, reliable)
    requires OwnWrite(p, c, before, server)
    requires ViewStep(before, a, server, after, server', result) && (a.Invoke? ==> Wants(p, c, a.input))
    ensures var p' := if a.Invoke? then Invoked(p)
                      else if a.Return? then Returned(p, c, !before.Free? && before.landed, result) else p;
      OwnWrite(p', c, after, server')
    ensures server'.Version(K) > server.Version(K) ||
      (server'.Version(K) == server.Version(K) && server'.Value(K) == server.Value(K))
  {
  }

  lemma StampStep(s: Sys, a: Action, reliable: bool, t: Sys)
    requires StampInv(s, reliable) && Step(s, a, reliable, t)
    ensures StampInv(t, reliable)
  {
    StepInv(s, a, reliable, t);
    var result := NextView(s.kv, a);
    var c := a.c;
    assert ClientInv(s.progs[c], c, ViewOf(s.kv, c), K in s.kv.server.data, reliable);
    ClientStamp(s.progs[c], c, ViewOf(s.kv, c), a, s.kv.server, ViewOf(t.kv, c), t.kv.server, result, reliable);
    forall d | 0 <= d < |t.progs| ensures OwnWrite(t.progs[d], d, ViewOf(t.kv, d), t.kv.server) {
      if d != c { assert OwnWrite(s.progs[d], d, ViewOf(s.kv, d), s.kv.server); }
    }
  }

  lemma {:induction false} RunStamp(states: seq<Sys>, actions: seq<Action>, reliable: bool, i: nat)
    requires Run(states, actions, reliable) && i <= |actions|
    ensures StampInv(states[i], reliable)
  {
    if i == 0 {
      StartInv(states[0], reliable);
    } else {
      RunStamp(states, actions, reliable, i - 1);
      StampStep(states[i - 1], actions[i - 1], reliable, states[i]);
    }
  }

  // ----- The accounting -----

  ghost function Results(s: Sys): seq<ClntRes> {
    seq(|s.progs|, c requires 0 <= c < |s.progs| => ClntRes(s.progs[c].nok, s.progs[c].nmay))
  }

  function SumOk(rs: seq<ClntRes>): nat {
    if rs == [] then 0 else SumOk(rs[..|rs| - 1]) + rs[|rs| - 1].nok
  }

  function SumMaybe(rs: seq<ClntRes>): nat {
    if rs == [] then 0 else SumMaybe(rs[..|rs| - 1]) + rs[|rs| - 1].nmaybe
  }

  ghost function SumApplied(s: Sys, n: nat): nat
    requires n <= |s.progs|
  {
    if n == 0 then 0 else SumApplied(s, n - 1) + s.progs[n - 1].applied
  }

  lemma {:induction false} SumsAgree(s: Sys, n: nat)
    requires n <= |s.progs| == |s.kv.phase| && Finished(s)
    requires forall c :: 0 <= c < |s.progs| ==> s.progs[c].applied <= s.progs[c].nmay
    ensures TotalWrites(s, n) == SumOk(Results(s)[..n]) + SumApplied(s, n)
    ensures SumApplied(s, n) <= SumMaybe(Results(s)[..n])
    ensures (forall c :: 0 <= c < n ==> s.progs[c].nmay == 0) ==> SumApplied(s, n) == 0
  {
    if n > 0 {
      SumsAgree(s, n - 1);
      assert Results(s)[..n][..n - 1] == Results(s)[..n - 1];
    }
  }

  // The check of the test: the counts are summed and compared with the version.
  method CheckPutConcurrent(rs: seq<ClntRes>, ver0: nat, reliable: bool) returns (ok: bool, res: ClntRes)
    ensures res == ClntRes(SumOk(rs), SumMaybe(rs))
    ensures ok <==> if reliable then ver0 == SumOk(rs) else ver0 <= SumOk(rs) + SumMaybe(rs)
  {
    res := ClntRes(0, 0);
    for i := 0 to |rs|
      invariant res == ClntRes(SumOk(rs[..i]), SumMaybe(rs[..i]))
    {
      assert rs[..i + 1][..i] == rs[..i];
      res := ClntRes(res.nok + rs[i].nok, res.nmaybe + rs[i].nmaybe);
    }
    assert rs[..|rs|] == rs;
    if reliable {
      ok := ver0 == res.nok;
    } else {
      ok := !(ver0 > res.nok + res.nmaybe);
    }
  }

  // After every finished run the version is the OKs plus the ErrMaybes that were applied, so at
  // most OKs plus ErrMaybes, and exactly the OKs when the network lost nothing. No client was
  // stopped by a fatal error on the way.
  lemma PutAccounting(states: seq<Sys>, actions: seq<Action>, reliable: bool)
    requires Run(states, actions, reliable) && Finished(states[|actions|])
    ensures var s := states[|actions|];
      && s.kv.server.Version(K) == SumOk(Results(s)) + SumApplied(s, |s.progs|)
      && s.kv.server.Version(K) <= SumOk(Results(s)) + SumMaybe(Results(s))
      && (reliable ==> s.kv.server.Version(K) == SumOk(Results(s)))
  {
    RunInv(states, actions, reliable, |actions|);
    var s := states[|actions|];
    assert forall c :: 0 <= c < |s.progs| ==>
      ClientInv(s.progs[c], c, ViewOf(s.kv, c), K in s.kv.server.data, reliable);
    SumsAgree(s, |s.progs|);
    assert Results(s)[..|s.progs|] == Results(s);
  }

  // In every state of every run no client has failed: no put is answered ErrNoKey, every read
  // back finds the key, and a client whose put was OK reads its own write at that version.
  lemma NoFatalError(states: seq<Sys>, actions: seq<Action>, reliable: bool, i: nat, c: nat)
    requires Run(states, actions, reliable) && i <= |actions| && c < |states[i].progs|
    ensures states[i].progs[c].pc != Failed
    ensures |states[i].progs| == |states[i].kv.phase|
    ensures var view := ViewOf(states[i].kv, c); view.Told? && view.input.Put? ==> view.reply.err != ErrNoKey
    ensures var p, view := states[i].progs[c], ViewOf(states[i].kv, c);
      p.pc.Reading? && p.pc.err == OK && view.Told? ==>
        && view.reply.err == OK
        && (view.reply.version == p.ver + 1 ==> view.reply.value == Stamp(c, p.ver))
  {
    RunStamp(states, actions, reliable, i);
    var s := states[i];
    assert ClientInv(s.progs[c], c, ViewOf(s.kv, c), K in s.kv.server.data, reliable);
    assert OwnWrite(s.progs[c], c, ViewOf(s.kv, c), s.kv.server);
  }

  // ----- A client left alone puts -----

  // These actions lead from s to t.
  ghost predicate Path(states: seq<Sys>, actions: seq<Action>, s: Sys, reliable: bool, t: Sys) {
    && |states| == |actions| + 1 && states[0] == s && states[|actions|] == t
    && forall i :: 0 <= i < |actions| ==> Step(states[i], actions[i], reliable, states[i + 1])
  }

  lemma PathMore(states: seq<Sys>, actions: seq<Action>, s: Sys, reliable: bool, t: Sys, a: Action, u: Sys)
    requires Path(states, actions, s, reliable, t) && Step(t, a, reliable, u)
    ensures Path(states + [u], actions + [a], s, reliable, u)
  {
    var all, more := states + [u], actions + [a];
    forall i | 0 <= i < |more| ensures Step(all[i], more[i], reliable, all[i + 1]) {
      if i < |actions| { assert Step(states[i], actions[i], reliable, states[i + 1]); }
    }
  }

  // One undisturbed operation of client c's program.
  lemma OneOp(states: seq<Sys>, actions: seq<Action>, s: Sys, reliable: bool, t: Sys, c: nat, input: Input)
    returns (all: seq<Sys>, more: seq<Action>, u: Sys)
    requires Path(states, actions, s, reliable, t)
    requires c < |t.progs| == |t.kv.phase| && t.kv.phase[c] == Idle && Wants(t.progs[c], c, input)
    ensures Path(all, more, s, reliable, u) && u.kv.phase == t.kv.phase && u.kv.server == t.kv.server.Handle(input).0
    ensures exists landed ::
      u.progs == t.progs[c := Returned(Invoked(t.progs[c]), c, landed, t.kv.server.Handle(input).1)]
  {
    var k1, k2, k3 := UndisturbedCall(t.kv, c, input);
    var progs := t.progs[c := Invoked(t.progs[c])];
    var u1, u2 := Sys(k1, progs), Sys(k2, progs);
    u := Sys(k3, progs[c := Returned(progs[c], c, Landed(u2, c), Result(k2, c))]);
    PathMore(states, actions, s, reliable, t, Action.Invoke(c, input), u1);
    PathMore(states + [u1], actions + [Action.Invoke(c, input)], s, reliable, u1, Execute(c), u2);
    all, more := states + [u1] + [u2], actions + [Action.Invoke(c, input)] + [Execute(c)];
    PathMore(all, more, s, reliable, u2, Return(c), u);
    all, more := all + [u], more + [Return(c)];
  }

  // A put and the read back, undisturbed: at the key's version it is OK and counted, at another
  // it is refused and the client takes up the key's version.
  lemma OneRound(states: seq<Sys>, actions: seq<Action>, s: Sys, reliable: bool, t: Sys, c: nat)
    returns (all: seq<Sys>, more: seq<Action>, u: Sys)
    requires Path(states, actions, s, reliable, t) && t.kv.server.Valid() && KeyInv(t.kv.server)
    requires c < |t.progs| == |t.kv.phase| && t.kv.phase[c] == Idle && t.progs[c].pc.Ready?
    requires t.progs[c].ver != 0 ==> K in t.kv.server.data
    ensures Path(all, more, s, reliable, u) && u.kv.phase == t.kv.phase && |u.progs| == |t.progs|
    ensures u.kv.server.Valid() && KeyInv(u.kv.server) && K in u.kv.server.data
    ensures u.progs[c].ver == u.kv.server.Version(K) && u.progs[c].nmay == t.progs[c].nmay
    ensures if t.progs[c].ver == t.kv.server.Version(K) then
        && u.progs[c].pc == Ready(true) && u.progs[c].nok == t.progs[c].nok + 1
        && u.kv.server.Version(K) == t.kv.server.Version(K) + 1
        && u.kv.server.Value(K) == Stamp(c, t.progs[c].ver)
      else u.progs[c].pc == Ready(false) && u.progs[c].nok == t.progs[c].nok && u.kv.server == t.kv.server
  {
    var p := t.progs[c];
    var mid;
    all, more, mid := OneOp(states, actions, s, reliable, t, c, Put(K, Stamp(c, p.ver), p.ver));
    assert mid.progs[c].pc.Check? && mid.progs[c].pc.err == t.kv.server.Handle(Put(K, Stamp(c, p.ver), p.ver)).1.err;
    all, more, u := OneOp(all, more, s, reliable, mid, c, Get(K));
  }

  // From any state of a run, a client between two puts that is left alone has a put answered OK
  // within two rounds.
  lemma AlonePuts(s: Sys, reliable: bool, c: nat) returns (states: seq<Sys>, actions: seq<Action>, t: Sys)
    requires PutInv(s, reliable) && c < |s.progs| && s.progs[c].pc.Ready? && s.kv.phase[c] == Idle
    ensures Path(states, actions, s, reliable, t)
    ensures c < |t.progs| && t.progs[c].pc == Ready(true) && t.progs[c].nok == s.progs[c].nok + 1
    ensures t.progs[c].nmay == s.progs[c].nmay && t.kv.server.Version(K) == s.kv.server.Version(K) + 1
    ensures t.kv.server.Value(K) == Stamp(c, s.kv.server.Version(K))
  {
    assert ClientInv(s.progs[c], c, ViewOf(s.kv, c), K in s.kv.server.data, reliable);
    states, actions, t := OneRound([s], [], s, reliable, s, c);
    if s.progs[c].ver != s.kv.server.Version(K) {
      states, actions, t := OneRound(states, actions, s, reliable, t, c);
    }
  }
}
