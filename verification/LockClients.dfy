// A lock kept in one key of the store: Acquire and Release as loops of Get then Put over the
// lossy Clerk, run by any number of clients that call Release only after Acquire returned, and
// that work on other keys of the store inside the lock and outside.

module LockClients {
  import opened KvTypes
  import opened KvSystem
  import opened KvView
  import opened Lock

  // Where a client is: outside; in Acquire, about to read, reading, about to put at version
  // ver, or putting; inside; the same in Release; or, outside or inside, in a call on another key.
  datatype Pc =
    | Outside
    | AcqRead | AcqReading | AcqPut(ver: nat) | AcqPutting(ver: nat)
    | Inside
    | RelRead | RelReading | RelPut(ver: nat) | RelPutting(ver: nat)
    | WorkOutside | WorkInside

  // doubt: some Release's Put has returned ErrMaybe.
  datatype Sys = Sys(kv: State, pcs: seq<Pc>, doubt: bool)

  predicate Wants(pc: Pc, name: string, input: Input) {
    match pc
    case AcqRead => input == Get(name)
    case AcqPut(ver) => input == Put(name, Held, ver)
    case RelRead => input == Get(name)
    case RelPut(ver) => input == Put(name, FreeValue, ver)
    case Outside => input.key != name
    case Inside => input.key != name
    case _ => false
  }

  function Invoked(pc: Pc): Pc {
    match pc
    case AcqRead => AcqReading
    case AcqPut(ver) => AcqPutting(ver)
    case RelRead => RelReading
    case RelPut(ver) => RelPutting(ver)
    case Outside => WorkOutside
    case Inside => WorkInside
    case _ => pc
  }

  // Both loops go back to reading unless the value read lets them put and the put is OK.
  function Returned(pc: Pc, r: Reply): Pc {
    match pc
    case AcqReading =>
      if r.err == ErrNoKey || (r.err == OK && r.value == FreeValue) then AcqPut(r.version) else AcqRead
    case AcqPutting(_) => if r.err == OK then Inside else AcqRead
    case RelReading =>
      if r.err == ErrNoKey || (r.err == OK && r.value == Held) then RelPut(r.version) else RelRead
    case RelPutting(_) => if r.err == OK then Outside else RelRead
    case WorkOutside => Outside
    case WorkInside => Inside
    case _ => pc
  }

  // A client outside calls Acquire, or one inside calls Release.
  function Called(pc: Pc): Pc {
    if pc == Outside then AcqRead else if pc == Inside then RelRead else pc
  }

  datatype Move = Call(c: nat) | Rpc(a: Action)

  ghost predicate Step(s: Sys, name: string, m: Move, t: Sys) {
    && |s.pcs| == |s.kv.phase|
    && match m
       case Call(c) =>
         && c < |s.pcs| && s.pcs[c] in {Outside, Inside}
         && t == s.(pcs := s.pcs[c := Called(s.pcs[c])])
       case Rpc(a) =>
         && Enabled(s.kv, a)
         && t.kv == Next(s.kv, a)
         && match a
            case Invoke(c, input) =>
              Wants(s.pcs[c], name, input) && t.pcs == s.pcs[c := Invoked(s.pcs[c])] && t.doubt == s.doubt
            case Return(c) =>
              && t.pcs == s.pcs[c := Returned(s.pcs[c], Result(s.kv, c))]
              && t.doubt == (s.doubt || (s.pcs[c].RelPutting? && Result(s.kv, c).err == ErrMaybe))
            case _ => t.pcs == s.pcs && t.doubt == s.doubt
  }

  // Nobody has used the lock: its key is absent, no call is under way, all clients are outside.
  ghost predicate Start(s: Sys, name: string) {
    && Reachable(s.kv)
    && name !in s.kv.server.data
    && |s.pcs| == |s.kv.phase| && !s.doubt
    && forall c :: 0 <= c < |s.pcs| ==> s.kv.phase[c] == Idle && s.pcs[c] == Outside
  }

  ghost predicate Run(states: seq<Sys>, name: string, moves: seq<Move>) {
    && |states| == |moves| + 1
    && Start(states[0], name)
    && forall i :: 0 <= i < |moves| ==> Step(states[i], name, moves[i], states[i + 1])
  }

  // ----- Parity: a version determines the value -----

  predicate Even(value: Value, version: nat) {
    value == if version % 2 == 1 then Held else FreeValue
  }

  ghost predicate KeyParity(server: Server, name: string) {
    name in server.data ==> Even(server.data[name], server.Version(name))
  }

  predicate ReadParity(r: Reply) {
    if r.err == OK then Even(r.value, r.version) && r.version >= 1 else r.err == ErrNoKey && r.version == 0
  }

  // The client's call is the one its program makes, and its version has the parity of the
  // value it read. A client in Release has seen the key.
  ghost predicate PcInv(pc: Pc, view: View, server: Server, name: string) {
    match pc
    case Outside => view == Free
    case AcqRead => view == Free
    case AcqReading => !view.Free? && view.input == Get(name) && (view.Told? ==> ReadParity(view.reply))
    case AcqPut(ver) => view == Free && ver % 2 == 0
    case AcqPutting(ver) =>
      !view.Free? && view.input == Put(name, Held, ver) && ver % 2 == 0
      && (view.landed ==> server.Version(name) > ver)
    case Inside => view == Free && name in server.data
    case RelRead => view == Free && name in server.data
    case RelReading =>
      !view.Free? && view.input == Get(name) && name in server.data
      && (view.Told? ==> ReadParity(view.reply) && view.reply.err == OK)
    case RelPut(ver) => view == Free && ver % 2 == 1 && name in server.data
    case RelPutting(ver) =>
      !view.Free? && view.input == Put(name, FreeValue, ver) && ver % 2 == 1 && name in server.data
      && (view.landed ==> server.Version(name) > ver)
      && (view.Told? ==> view.reply.err != ErrNoKey)
    case WorkOutside => !view.Free? && view.input.key != name
    case WorkInside => !view.Free? && view.input.key != name && name in server.data
  }

  ghost predicate ParityInv(s: Sys, name: string) {
    && KvSystem.Inv(s.kv)
    && |s.pcs| == |s.kv.phase|
    && s.kv.server.Valid() && KeyParity(s.kv.server, name)
    && forall c :: 0 <= c < |s.pcs| ==> PcInv(s.pcs[c], ViewOf(s.kv, c), s.kv.server, name)
  }

  function Acted(pc: Pc, a: Action, result: Reply): Pc {
    if a.Invoke? then Invoked(pc) else if a.Return? then Returned(pc, result) else pc
  }

  lemma ActorParity(pc: Pc, name: string, before: View, a: Action, server: Server, after: View, server': Server, result: Reply)
    requires server.Valid() && KeyParity(server, name) && PcInv(pc, before, server, name)
    requires ViewStep(before, a, server, after, server', result)
    requires a.Invoke? ==> Wants(pc, name, a.input)
    ensures PcInv(Acted(pc, a, result), after, server', name)
    ensures server'.Valid() && KeyParity(server', name)
    ensures name in server.data ==> name in server'.data
    ensures server'.Version(name) >= server.Version(name)
  {
  }

  lemma StepParity(s: Sys, name: string, m: Move, t: Sys)
    requires ParityInv(s, name) && Step(s, name, m, t)
    ensures ParityInv(t, name)
  {
    match m
    case Call(c) =>
      forall d | 0 <= d < |t.pcs| ensures PcInv(t.pcs[d], ViewOf(t.kv, d), t.kv.server, name) {
        assert PcInv(s.pcs[d], ViewOf(s.kv, d), s.kv.server, name);
      }
    case Rpc(a) =>
      NextInv(s.kv, a);
      var result := NextView(s.kv, a);
      var c := a.c;
      assert PcInv(s.pcs[c], ViewOf(s.kv, c), s.kv.server, name);
      ActorParity(s.pcs[c], name, ViewOf(s.kv, c), a, s.kv.server, ViewOf(t.kv, c), t.kv.server, result);
      forall d | 0 <= d < |t.pcs| ensures PcInv(t.pcs[d], ViewOf(t.kv, d), t.kv.server, name) {
        if d != c { assert PcInv(s.pcs[d], ViewOf(s.kv, d), s.kv.server, name); }
      }
  }

  lemma StartParity(s: Sys, name: string)
    requires Start(s, name)
    ensures ParityInv(s, name)
  {
    ReachableInv(s.kv);
  }

  lemma {:induction false} RunParity(states: seq<Sys>, name: string, moves: seq<Move>, i: nat)
    requires Run(states, name, moves) && i <= |moves|
    ensures ParityInv(states[i], name)
  {
    if i == 0 {
      StartParity(states[0], name);
    } else {
      RunParity(states, name, moves, i - 1);
      StepParity(states[i - 1], name, moves[i - 1], states[i]);
    }
  }

  // In every run, whatever was lost, the lock's value is held exactly at odd versions; so two
  // states at the same version have the same value, and a put of a stale read cannot win.
  lemma VersionDeterminesValue(states: seq<Sys>, name: string, moves: seq<Move>, i: nat, j: nat)
    requires Run(states, name, moves) && i <= |moves| && j <= |moves|
    requires states[i].kv.server.Version(name) == states[j].kv.server.Version(name)
    ensures KeyParity(states[i].kv.server, name)
    ensures states[i].kv.server.Value(name) == states[j].kv.server.Value(name)
  {
    RunParity(states, name, moves, i);
    RunParity(states, name, moves, j);
  }

  // ----- Mutual exclusion -----

  // Between a returned Acquire and the Release put that takes effect.
  ghost predicate InCritical(pc: Pc, view: View) {
    pc in {Inside, WorkInside, RelRead, RelReading} || pc.RelPut? || (pc.RelPutting? && !view.Free? && !view.landed)
  }

  // In the critical section, or about to learn that its Acquire put was applied.
  ghost predicate Owns(pc: Pc, view: View) {
    InCritical(pc, view) || (pc.AcqPutting? && !view.Free? && view.landed)
  }

  // An owner's lock is held, and the version a releaser read is still the version.
  ghost predicate OwnerInv(pc: Pc, view: View, server: Server, name: string) {
    && (Owns(pc, view) ==> name in server.data && server.data[name] == Held)
    && (Owns(pc, view) && (pc.RelPut? || pc.RelPutting?) ==> pc.ver == server.Version(name))
    && (Owns(pc, view) && pc.RelReading? && view.Told? ==> view.reply == Reply(Held, server.Version(name), OK))
    && (pc.RelPutting? && view.Told? ==> view.landed)
  }

  ghost predicate OneOwner(s: Sys)
    requires |s.pcs| == |s.kv.phase|
  {
    forall c, d :: 0 <= c < |s.pcs| && 0 <= d < |s.pcs| && Owns(s.pcs[c], ViewOf(s.kv, c)) && Owns(s.pcs[d], ViewOf(s.kv, d)) ==>
      c == d
  }

  ghost predicate LockInv(s: Sys, name: string) {
    && ParityInv(s, name)
    && OneOwner(s)
    && forall c :: 0 <= c < |s.pcs| ==> OwnerInv(s.pcs[c], ViewOf(s.kv, c), s.kv.server, name)
  }

  // One client's step: it becomes an owner only when the lock was not held, and it changes the
  // lock's key only then or as the owner.
  lemma ActorOwns(pc: Pc, name: string, before: View, a: Action, server: Server, after: View, server': Server, result: Reply)
    requires server.Valid() && KeyParity(server, name)
    requires PcInv(pc, before, server, name) && OwnerInv(pc, before, server, name)
    requires ViewStep(before, a, server, after, server', result)
    requires a.Invoke? ==> Wants(pc, name, a.input)
    requires !(a.Return? && pc.RelPutting? && result.err == ErrMaybe)
    ensures OwnerInv(Acted(pc, a, result), after, server', name)
    ensures Owns(Acted(pc, a, result), after) ==> Owns(pc, before) || server.Value(name) != Held
    ensures Owns(pc, before) || server.Value(name) != Held ||
      (server'.Value(name) == server.Value(name) && server'.Version(name) == server.Version(name))
    ensures a.Return? && pc.RelPutting? ==> result.err == OK
    ensures name in server.data ==> name in server'.data
  {
  }

  // At most one client owns the lock still, if only c's ownership can have changed, and c became
  // an owner only when the lock was not held.
  lemma OneOwnerKept(s: Sys, t: Sys, name: string, c: nat)
    requires |t.pcs| == |t.kv.phase| == |s.pcs| == |s.kv.phase| && c < |s.pcs| && OneOwner(s)
    requires forall d :: 0 <= d < |s.pcs| ==> OwnerInv(s.pcs[d], ViewOf(s.kv, d), s.kv.server, name)
    requires forall d :: 0 <= d < |s.pcs| && d != c ==>
      t.pcs[d] == s.pcs[d] && ViewOf(t.kv, d) == ViewOf(s.kv, d)
    requires Owns(t.pcs[c], ViewOf(t.kv, c)) ==>
      Owns(s.pcs[c], ViewOf(s.kv, c)) || s.kv.server.Value(name) != Held
    ensures OneOwner(t)
  {
    forall d | 0 <= d < |s.pcs| ensures Owns(s.pcs[d], ViewOf(s.kv, d)) ==> s.kv.server.Value(name) == Held {
      assert OwnerInv(s.pcs[d], ViewOf(s.kv, d), s.kv.server, name);
    }
  }

  // The other clients' invariant is kept, as c changed the lock's key only as the owner or when
  // nobody held the lock.
  lemma OwnersKept(s: Sys, t: Sys, name: string, c: nat, d: nat)
    requires |t.pcs| == |t.kv.phase| == |s.pcs| == |s.kv.phase| && c < |s.pcs| && d < |s.pcs| && d != c && OneOwner(s)
    requires OwnerInv(s.pcs[d], ViewOf(s.kv, d), s.kv.server, name)
    requires t.pcs[d] == s.pcs[d] && ViewOf(t.kv, d) == ViewOf(s.kv, d)
    requires name in s.kv.server.data ==> name in t.kv.server.data
    requires Owns(s.pcs[c], ViewOf(s.kv, c)) || s.kv.server.Value(name) != Held ||
      (t.kv.server.Value(name) == s.kv.server.Value(name) && t.kv.server.Version(name) == s.kv.server.Version(name))
    ensures OwnerInv(t.pcs[d], ViewOf(t.kv, d), t.kv.server, name)
  {
  }

  lemma RpcLock(s: Sys, name: string, a: Action, t: Sys)
    requires LockInv(s, name) && Step(s, name, Rpc(a), t) && !t.doubt && !s.doubt
    ensures LockInv(t, name)
    ensures a.Return? && s.pcs[a.c].RelPutting? ==> Result(s.kv, a.c).err == OK
  {
    StepParity(s, name, Rpc(a), t);
    var result := NextView(s.kv, a);
    var c := a.c;
    assert PcInv(s.pcs[c], ViewOf(s.kv, c), s.kv.server, name);
    assert OwnerInv(s.pcs[c], ViewOf(s.kv, c), s.kv.server, name);
    ActorOwns(s.pcs[c], name, ViewOf(s.kv, c), a, s.kv.server, ViewOf(t.kv, c), t.kv.server, result);
    OneOwnerKept(s, t, name, c);
    forall d | 0 <= d < |t.pcs| ensures OwnerInv(t.pcs[d], ViewOf(t.kv, d), t.kv.server, name) {
      assert OwnerInv(s.pcs[d], ViewOf(s.kv, d), s.kv.server, name);
      if d != c { OwnersKept(s, t, name, c, d); }
    }
  }

  lemma StepLock(s: Sys, name: string, m: Move, t: Sys)
    requires LockInv(s, name) && Step(s, name, m, t) && !t.doubt && !s.doubt
    ensures LockInv(t, name)
  {
    match m
    case Call(c) =>
      StepParity(s, name, m, t);
      forall d | 0 <= d < |t.pcs|
        ensures OwnerInv(t.pcs[d], ViewOf(t.kv, d), t.kv.server, name)
        ensures Owns(t.pcs[d], ViewOf(t.kv, d)) ==> Owns(s.pcs[d], ViewOf(s.kv, d))
      {
        assert OwnerInv(s.pcs[d], ViewOf(s.kv, d), s.kv.server, name);
        assert PcInv(s.pcs[d], ViewOf(s.kv, d), s.kv.server, name);
      }
    case Rpc(a) => RpcLock(s, name, a, t);
  }

  lemma {:induction false} RunLock(states: seq<Sys>, name: string, moves: seq<Move>, i: nat)
    requires Run(states, name, moves) && i <= |moves| && !states[i].doubt
    ensures LockInv(states[i], name)
    ensures forall j :: 0 <= j <= i ==> !states[j].doubt
  {
    if i == 0 {
      StartParity(states[0], name);
    } else {
      assert Step(states[i - 1], name, moves[i - 1], states[i]);
      RunLock(states, name, moves, i - 1);
      StepLock(states[i - 1], name, moves[i - 1], states[i]);
    }
  }

  // As long as no Release's Put has returned ErrMaybe, at most one client is in the critical
  // section, and while it is the lock is held.
  lemma MutualExclusion(states: seq<Sys>, name: string, moves: seq<Move>, i: nat, c: nat, d: nat)
    requires Run(states, name, moves) && i <= |moves| && !states[i].doubt
    requires c < |states[i].pcs| == |states[i].kv.phase| && d < |states[i].pcs|
    requires InCritical(states[i].pcs[c], ViewOf(states[i].kv, c))
    requires InCritical(states[i].pcs[d], ViewOf(states[i].kv, d))
    ensures c == d && states[i].kv.server.Value(name) == Held
  {
    RunLock(states, name, moves, i);
    assert OwnerInv(states[i].pcs[c], ViewOf(states[i].kv, c), states[i].kv.server, name);
  }

  // The holder's version cannot move under it: its Release put is never refused.
  lemma ReleaseNotRefused(states: seq<Sys>, name: string, moves: seq<Move>, i: nat)
    requires Run(states, name, moves) && i < |moves| && !states[i + 1].doubt
    requires moves[i].Rpc? && moves[i].a.Return? && moves[i].a.c < |states[i].pcs|
    requires states[i].pcs[moves[i].a.c].RelPutting?
    ensures Enabled(states[i].kv, moves[i].a)
    ensures Result(states[i].kv, moves[i].a.c).err == OK
    ensures states[i + 1].pcs[moves[i].a.c] == Outside
  {
    RunLock(states, name, moves, i + 1);
    RunLock(states, name, moves, i);
    assert Step(states[i], name, moves[i], states[i + 1]);
    RpcLock(states[i], name, moves[i].a, states[i + 1]);
  }

  // ----- When the proviso holds -----

  // The network drops the reply to a Release's put.
  ghost predicate LosesRelease(s: Sys, m: Move) {
    m.Rpc? && m.a.DropReply? && m.a.c < |s.pcs| && s.pcs[m.a.c].RelPutting?
  }

  ghost predicate KeepsReleases(states: seq<Sys>, moves: seq<Move>) {
    |states| == |moves| + 1 && forall i :: 0 <= i < |moves| ==> !LosesRelease(states[i], moves[i])
  }

  // A Release's put that was applied is waiting to be told so.
  ghost predicate ReleaseAnswered(pc: Pc, view: View) {
    pc.RelPutting? && !view.Free? && view.landed ==> view.Told? && view.reply.err == OK
  }

  ghost predicate CertainInv(s: Sys, name: string) {
    && LockInv(s, name) && !s.doubt
    && forall c :: 0 <= c < |s.pcs| ==> ReleaseAnswered(s.pcs[c], ViewOf(s.kv, c))
  }

  lemma StepCertain(s: Sys, name: string, m: Move, t: Sys)
    requires CertainInv(s, name) && Step(s, name, m, t) && !LosesRelease(s, m)
    ensures CertainInv(t, name)
  {
    match m
    case Call(c) =>
      forall d | 0 <= d < |t.pcs| ensures ReleaseAnswered(t.pcs[d], ViewOf(t.kv, d)) {
        assert ReleaseAnswered(s.pcs[d], ViewOf(s.kv, d));
      }
    case Rpc(a) =>
      var c := a.c;
      var result := NextView(s.kv, a);
      assert PcInv(s.pcs[c], ViewOf(s.kv, c), s.kv.server, name);
      assert OwnerInv(s.pcs[c], ViewOf(s.kv, c), s.kv.server, name);
      forall d | 0 <= d < |t.pcs| ensures ReleaseAnswered(t.pcs[d], ViewOf(t.kv, d)) {
        assert ReleaseAnswered(s.pcs[d], ViewOf(s.kv, d));
      }
    StepLock(s, name, m, t);
  }

  // If no reply to a Release's put is dropped, no Release's put ever returns ErrMaybe, so the
  // lock excludes however many other messages are lost.
  lemma {:induction false} RunCertain(states: seq<Sys>, name: string, moves: seq<Move>, i: nat)
    requires Run(states, name, moves) && KeepsReleases(states, moves) && i <= |moves|
    ensures CertainInv(states[i], name)
  {
    if i == 0 {
      StartParity(states[0], name);
    } else {
      RunCertain(states, name, moves, i - 1);
      StepCertain(states[i - 1], name, moves[i - 1], states[i]);
    }
  }
}
