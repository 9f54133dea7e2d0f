// What one client's program needs to know of the system: the RPC it is in, whether its write
// has landed, and how each step changes that. Programs are reasoned about through this view,
// not through the log.

module KvView {
  import opened KvTypes
  import opened KvLog
  import opened KvSystem

  // landed: the operation's write has been applied. first: no call of it has failed yet.
  datatype View =
    | Free
    | Asking(input: Input, landed: bool, first: bool)
    | Told(input: Input, landed: bool, first: bool, reply: Reply)

  ghost function ViewOf(s: State, c: nat): View
    requires c < |s.phase|
  {
    var p := s.phase[c];
    if p.Idle? || p.op >= |s.ops| then Free
    else
      var op := s.ops[p.op];
      if p.Calling? then Asking(op.input, op.applied != -1, p.first)
      else Told(op.input, op.applied != -1, p.first, p.reply)
  }

  // How an action changes the acting client's view and the server.
  ghost predicate ViewStep(before: View, a: Action, server: Server, after: View, server': Server, result: Reply) {
    match a
    case Invoke(_, input) =>
      before == Free && after == Asking(input, false, true) && server' == server
    case DropRequest(_) =>
      before.Asking? && after == Asking(before.input, before.landed, false) && server' == server
    case Execute(_) =>
      && before.Asking?
      && (before.landed ==> !server.Applies(before.input))
      && (server', result) == server.Handle(before.input)
      && after == Told(before.input, before.landed || server.Applies(before.input), before.first, result)
    case DropReply(_) =>
      before.Told? && after == Asking(before.input, before.landed, false) && server' == server
    case Return(_) =>
      && before.Told? && after == Free && server' == server
      && result == ClerkReply(before.first, before.input, before.reply)
      && (before.input.Put? ==>
            && (result.err == OK ==> before.landed)
            && (result.err == ErrVersion || result.err == ErrNoKey ==> !before.landed))
  }

  // Every step of the system is a step of the acting client's view; no other view changes.
  lemma NextView(s: State, a: Action) returns (result: Reply)
    requires Inv(s) && Enabled(s, a)
    ensures var t := Next(s, a);
      && ViewStep(ViewOf(s, a.c), a, s.server, ViewOf(t, a.c), t.server, result)
      && (forall d :: 0 <= d < |s.phase| && d != a.c ==> ViewOf(t, d) == ViewOf(s, d))
    ensures a.Return? ==> result == Result(s, a.c)
  {
    var t := Next(s, a);
    assert PhaseInv(s, a.c);
    forall d | 0 <= d < |s.phase| && d != a.c ensures ViewOf(t, d) == ViewOf(s, d) {
      assert PhaseInv(s, d);
    }
    result := Reply(NoValue, 0, OK);
    if a.Execute? {
      var o := s.phase[a.c].op;
      assert OpInv(s, o);
      result := s.server.Handle(s.ops[o].input).1;
      if s.ops[o].applied != -1 {
        AppliedThenRefused(s.log, s.ops[o].applied, |s.log|);
        assert s.log[..|s.log|] == s.log;
      }
    } else if a.Return? {
      var o := s.phase[a.c].op;
      assert OpInv(s, o);
      result := Result(s, a.c);
      if s.ops[o].input.Put? { ReturnedPut(s, a.c); }
    }
  }
}
