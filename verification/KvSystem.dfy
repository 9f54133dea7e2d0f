// Many Clerks calling one server over a network that may drop a request before the handler
// runs, or the reply after it ran. Each call of an RPC runs the handler at most once, before
// the call returns.

module KvSystem {
  import opened Collections
  import opened KvTypes
  import opened KvLog

  // A finished operation's result and the time it returned.
  datatype Done = Done(out: Reply, ret: nat)

  // One Clerk operation: when it was invoked, the log positions of its last execution and of
  // its applied write (-1 for none), and its outcome.
  datatype Op = Op(client: nat, input: Input, inv: nat, last: int, applied: int, done: Option<Done>)

  // Between operations; inside an RPC whose handler has not run; or with its reply on the way.
  datatype Phase =
    | Idle
    | Calling(op: nat, first: bool)
    | Answered(op: nat, first: bool, reply: Reply)

  datatype State = State(now: nat, server: Server, log: seq<Exec>, ops: seq<Op>, phase: seq<Phase>)

  datatype Action =
    | Invoke(c: nat, input: Input)
    | DropRequest(c: nat)
    | Execute(c: nat)
    | DropReply(c: nat)
    | Return(c: nat)

  ghost predicate Init(s: State) {
    s.server == EmptyServer && s.log == [] && s.ops == [] && forall c :: 0 <= c < |s.phase| ==> s.phase[c] == Idle
  }

  predicate Lossy(a: Action) { a.DropRequest? || a.DropReply? }

  ghost predicate Enabled(s: State, a: Action) {
    && a.c < |s.phase|
    && match a
       case Invoke(c, _) => s.phase[c] == Idle
       case DropRequest(c) => s.phase[c].Calling?
       case Execute(c) => s.phase[c].Calling? && s.phase[c].op < |s.ops|
       case DropReply(c) => s.phase[c].Answered?
       case Return(c) => s.phase[c].Answered? && s.phase[c].op < |s.ops|
  }

  // What an enabled Return hands to the caller.
  ghost function Result(s: State, c: nat): Reply
    requires Enabled(s, Return(c))
  {
    ClerkReply(s.phase[c].first, s.ops[s.phase[c].op].input, s.phase[c].reply)
  }

  ghost function Next(s: State, a: Action): State
    requires Enabled(s, a)
  {
    match a
    case Invoke(c, input) =>
      s.(now := s.now + 1,
         ops := s.ops + [Op(c, input, s.now, -1, -1, None)],
         phase := s.phase[c := Calling(|s.ops|, true)])
    case DropRequest(c) =>
      s.(now := s.now + 1, phase := s.phase[c := Calling(s.phase[c].op, false)])
    case Execute(c) =>
      var Calling(o, first) := s.phase[c];
      var (server, reply) := s.server.Handle(s.ops[o].input);
      var e := Exec(o, s.ops[o].input, reply, s.now);
      s.(now := s.now + 1,
         server := server,
         log := s.log + [e],
         ops := s.ops[o := s.ops[o].(last := |s.log|, applied := if Applied(e) then |s.log| else s.ops[o].applied)],
         phase := s.phase[c := Answered(o, first, reply)])
    case DropReply(c) =>
      s.(now := s.now + 1, phase := s.phase[c := Calling(s.phase[c].op, false)])
    case Return(c) =>
      var o := s.phase[c].op;
      s.(now := s.now + 1,
         ops := s.ops[o := s.ops[o].(done := Some(Done(Result(s, c), s.now)))],
         phase := s.phase[c := Idle])
  }

  // ----- The invariant -----

  ghost predicate LogInv(s: State) {
    && WellLogged(s.log)
    && s.server == Replay(s.log)
    && (forall i :: 0 <= i < |s.log| ==> s.log[i].at < s.now)
    && (forall i :: 0 <= i < |s.log| ==>
          s.log[i].op < |s.ops| && s.ops[s.log[i].op].input == s.log[i].input && s.ops[s.log[i].op].inv <= s.log[i].at)
  }

  // Log position i belongs to operation o.
  ghost predicate IsRun(s: State, o: nat, i: int) {
    0 <= i < |s.log| && s.log[i].op == o
  }

  // last and applied are o's last run and its only applied run.
  ghost predicate Tracked(s: State, o: nat)
    requires o < |s.ops|
  {
    var op := s.ops[o];
    && (op.last == -1 || IsRun(s, o, op.last))
    && (forall i :: IsRun(s, o, i) ==> i <= op.last)
    && (op.applied == -1 || (IsRun(s, o, op.applied) && Applied(s.log[op.applied])))
    && (forall i :: IsRun(s, o, i) && Applied(s.log[i]) ==> i == op.applied)
  }

  ghost predicate PhaseInv(s: State, c: nat)
    requires c < |s.phase|
  {
    var p := s.phase[c];
    p.Idle? ||
    (&& p.op < |s.ops| && s.ops[p.op].client == c && s.ops[p.op].done.None?
     && (p.Calling? && p.first ==> s.ops[p.op].last == -1)
     && (p.Answered? ==> IsRun(s, p.op, s.ops[p.op].last) && s.log[s.ops[p.op].last].reply == p.reply)
     && (p.Answered? && p.first ==> forall i :: IsRun(s, p.op, i) ==> i == s.ops[p.op].last))
  }

  // What a put's result says about its runs.
  ghost predicate PutExplained(s: State, o: nat, err: Err)
    requires o < |s.ops|
  {
    var op := s.ops[o];
    && IsRun(s, o, op.last)
    && match err
       case OK => op.applied == op.last
       case ErrVersion => op.applied == -1 && s.log[op.last].reply.err == ErrVersion
       case ErrNoKey => op.applied == -1 && s.log[op.last].reply.err == ErrNoKey
       case ErrMaybe => s.log[op.last].reply.err == ErrVersion
  }

  // What a finished operation's outcome says about its runs.
  ghost predicate Explained(s: State, o: nat)
    requires o < |s.ops|
  {
    var op := s.ops[o];
    op.done.Some? ==>
      && IsRun(s, o, op.last)
      && s.log[op.last].at < op.done.value.ret < s.now
      && (op.input.Get? ==> op.done.value.out == s.log[op.last].reply)
      && (op.input.Put? ==> PutExplained(s, o, op.done.value.out.err))
  }

  ghost predicate OpInv(s: State, o: nat)
    requires o < |s.ops|
  {
    Tracked(s, o) && Explained(s, o) && s.ops[o].client < |s.phase| && s.ops[o].inv < s.now
  }

  ghost predicate Inv(s: State) {
    && LogInv(s)
    && (forall o :: 0 <= o < |s.ops| ==> OpInv(s, o))
    && (forall c :: 0 <= c < |s.phase| ==> PhaseInv(s, c))
  }

  lemma InitInv(s: State)
    requires Init(s)
    ensures Inv(s)
  {
  }

  // An operation with no new run, and a client with the same phase, keep their invariants.
  ghost predicate Extends(s: State, t: State) {
    && s.now <= t.now
    && |s.log| <= |t.log| && t.log[..|s.log|] == s.log
    && |s.ops| <= |t.ops|
    && |s.phase| == |t.phase|
  }

  lemma OpFrame(s: State, t: State, o: nat)
    requires Extends(s, t) && o < |s.ops| && t.ops[o] == s.ops[o] && OpInv(s, o)
    requires forall i :: IsRun(t, o, i) ==> i < |s.log|
    ensures OpInv(t, o)
  {
    assert forall i :: 0 <= i < |s.log| ==> t.log[i] == s.log[i];
    assert forall i :: IsRun(t, o, i) ==> IsRun(s, o, i);
  }

  lemma PhaseFrame(s: State, t: State, c: nat)
    requires Extends(s, t) && c < |s.phase| && t.phase[c] == s.phase[c] && PhaseInv(s, c)
    requires !s.phase[c].Idle? ==> t.ops[s.phase[c].op] == s.ops[s.phase[c].op]
    requires !s.phase[c].Idle? ==> forall i :: IsRun(t, s.phase[c].op, i) ==> i < |s.log|
    ensures PhaseInv(t, c)
  {
    assert forall i :: 0 <= i < |s.log| ==> t.log[i] == s.log[i];
    assert !s.phase[c].Idle? ==> forall i :: IsRun(t, s.phase[c].op, i) ==> IsRun(s, s.phase[c].op, i);
  }

  lemma InvokeInv(s: State, c: nat, input: Input)
    requires Inv(s) && Enabled(s, Invoke(c, input))
    ensures Inv(Next(s, Invoke(c, input)))
  {
    var t := Next(s, Invoke(c, input));
    forall o | 0 <= o < |t.ops| ensures OpInv(t, o) {
      if o < |s.ops| { OpFrame(s, t, o); }
    }
    forall d | 0 <= d < |t.phase| ensures PhaseInv(t, d) {
      assert PhaseInv(s, d);
      if d != c { PhaseFrame(s, t, d); }
    }
  }

  lemma DropInv(s: State, a: Action)
    requires Inv(s) && Enabled(s, a) && Lossy(a)
    ensures Inv(Next(s, a))
  {
    var t := Next(s, a);
    forall o | 0 <= o < |t.ops| ensures OpInv(t, o) {
      OpFrame(s, t, o);
    }
    forall d | 0 <= d < |t.phase| ensures PhaseInv(t, d) {
      assert PhaseInv(s, d);
      if d != a.c { PhaseFrame(s, t, d); }
    }
  }

  // The run just logged keeps its operation tracked: a write applied before refuses it.
  lemma ExecuteTracked(s: State, c: nat)
    requires Inv(s) && Enabled(s, Execute(c))
    ensures var t, o := Next(s, Execute(c)), s.phase[c].op;
      && OpInv(t, o) && t.ops[o].done.None?
      && (s.phase[c].first ==> forall i :: IsRun(t, o, i) ==> i == |s.log|)
  {
    var t, o, n := Next(s, Execute(c)), s.phase[c].op, |s.log|;
    assert PhaseInv(s, c) && OpInv(s, o);
    assert forall i :: IsRun(t, o, i) <==> IsRun(s, o, i) || i == n;
    assert forall i :: 0 <= i < n ==> t.log[i] == s.log[i];
    if s.ops[o].applied != -1 {
      AppliedThenRefused(s.log, s.ops[o].applied, n);
      assert s.log[..n] == s.log;
    }
  }

  lemma ExecuteLog(s: State, c: nat)
    requires LogInv(s) && Enabled(s, Execute(c)) && s.ops[s.phase[c].op].inv < s.now
    ensures LogInv(Next(s, Execute(c)))
  {
    var t, n := Next(s, Execute(c)), |s.log|;
    var e := t.log[n];
    assert t.log == s.log + [e];
    WellLoggedAppend(s.log, e);
    forall i | 0 <= i < |t.log|
      ensures t.log[i].at < t.now
      ensures t.log[i].op < |t.ops| && t.ops[t.log[i].op].input == t.log[i].input && t.ops[t.log[i].op].inv <= t.log[i].at
    {
      assert i < n ==> t.log[i] == s.log[i];
    }
  }

  lemma ExecuteOps(s: State, c: nat)
    requires Inv(s) && Enabled(s, Execute(c))
    ensures var t := Next(s, Execute(c)); forall o :: 0 <= o < |t.ops| ==> OpInv(t, o)
  {
    var t, o0 := Next(s, Execute(c)), s.phase[c].op;
    ExecuteTracked(s, c);
    forall o | 0 <= o < |t.ops| ensures OpInv(t, o) {
      if o != o0 { OpFrame(s, t, o); }
    }
  }

  lemma ExecutePhases(s: State, c: nat)
    requires Inv(s) && Enabled(s, Execute(c))
    ensures var t := Next(s, Execute(c)); forall d :: 0 <= d < |t.phase| ==> PhaseInv(t, d)
  {
    var t := Next(s, Execute(c));
    ExecuteTracked(s, c);
    forall d | 0 <= d < |t.phase| ensures PhaseInv(t, d) {
      assert PhaseInv(s, d) && PhaseInv(s, c);
      if d != c { PhaseFrame(s, t, d); }
    }
  }

  lemma ExecuteInv(s: State, c: nat)
    requires Inv(s) && Enabled(s, Execute(c))
    ensures Inv(Next(s, Execute(c)))
  {
    assert PhaseInv(s, c) && OpInv(s, s.phase[c].op);
    ExecuteLog(s, c);
    ExecuteOps(s, c);
    ExecutePhases(s, c);
  }

  // The last run's reply settles the earlier runs of the same put.
  lemma ReturnedPut(s: State, c: nat)
    requires Inv(s) && Enabled(s, Return(c)) && s.ops[s.phase[c].op].input.Put?
    ensures PutExplained(s, s.phase[c].op, Result(s, c).err)
  {
    var o := s.phase[c].op;
    var op := s.ops[o];
    assert PhaseInv(s, c) && OpInv(s, o);
    assert Replied(s.log, op.last);
    if op.applied != -1 && op.applied != op.last {
      AppliedThenRefused(s.log, op.applied, op.last);
    }
  }

  lemma ReturnInv(s: State, c: nat)
    requires Inv(s) && Enabled(s, Return(c))
    ensures Inv(Next(s, Return(c)))
  {
    var t, o0 := Next(s, Return(c)), s.phase[c].op;
    assert PhaseInv(s, c) && OpInv(s, o0);
    if s.ops[o0].input.Put? { ReturnedPut(s, c); }
    forall o | 0 <= o < |t.ops| ensures OpInv(t, o) {
      if o != o0 {
        OpFrame(s, t, o);
      } else {
        assert forall i :: IsRun(t, o, i) <==> IsRun(s, o, i);
      }
    }
    forall d | 0 <= d < |t.phase| ensures PhaseInv(t, d) {
      assert PhaseInv(s, d);
      if d != c { PhaseFrame(s, t, d); }
    }
  }

  lemma NextInv(s: State, a: Action)
    requires Inv(s) && Enabled(s, a)
    ensures Inv(Next(s, a))
  {
    match a
    case Invoke(c, input) => InvokeInv(s, c, input);
    case DropRequest(c) => DropInv(s, a);
    case Execute(c) => ExecuteInv(s, c);
    case DropReply(c) => DropInv(s, a);
    case Return(c) => ReturnInv(s, c);
  }

  // ----- Runs -----

  // The states of a run that performs the given actions.
  ghost predicate IsTrace(states: seq<State>, actions: seq<Action>) {
    && |states| == |actions| + 1
    && Init(states[0])
    && forall i :: 0 <= i < |actions| ==> Enabled(states[i], actions[i]) && states[i + 1] == Next(states[i], actions[i])
  }

  ghost predicate Reachable(s: State) {
    exists states, actions :: IsTrace(states, actions) && s == states[|actions|]
  }

  lemma {:induction false} TraceInv(states: seq<State>, actions: seq<Action>, i: nat)
    requires IsTrace(states, actions) && i <= |actions|
    ensures Inv(states[i])
  {
    if i == 0 {
      InitInv(states[0]);
    } else {
      TraceInv(states, actions, i - 1);
      NextInv(states[i - 1], actions[i - 1]);
    }
  }

  lemma ReachableInv(s: State)
    requires Reachable(s)
    ensures Inv(s)
  {
    var states, actions :| IsTrace(states, actions) && s == states[|actions|];
    TraceInv(states, actions, |actions|);
  }

  // ----- What a Put's outcome tells its caller -----

  lemma {:induction false} TimesAppliedIs(s: State, o: nat, n: nat)
    requires o < |s.ops| && Tracked(s, o) && n <= |s.log|
    ensures TimesApplied(s.log[..n], o) == if 0 <= s.ops[o].applied < n then 1 else 0
  {
    if n > 0 {
      TimesAppliedIs(s, o, n - 1);
      assert s.log[..n][..n - 1] == s.log[..n - 1];
      assert IsRun(s, o, n - 1) <==> s.log[n - 1].op == o;
    }
  }

  // In every run, whatever was lost: OK means the write was applied exactly once, and it was
  // applied when the key was at the put's version; ErrVersion and ErrNoKey mean it was never
  // applied; ErrMaybe, or no answer yet, means at most once.
  lemma {:induction false} PutOutcomes(s: State, o: nat)
    requires Reachable(s) && o < |s.ops| && s.ops[o].input.Put?
    ensures TimesApplied(s.log, o) <= 1
    ensures s.ops[o].done.Some? ==>
      match s.ops[o].done.value.out.err
      case OK =>
        && TimesApplied(s.log, o) == 1
        && 0 <= s.ops[o].applied < |s.log| && Applied(s.log[s.ops[o].applied])
        && Replay(s.log[..s.ops[o].applied]).Version(s.ops[o].input.key) == s.ops[o].input.version
      case ErrVersion => TimesApplied(s.log, o) == 0
      case ErrNoKey => TimesApplied(s.log, o) == 0
      case ErrMaybe => TimesApplied(s.log, o) <= 1
  {
    ReachableInv(s);
    assert OpInv(s, o);
    TimesAppliedIs(s, o, |s.log|);
    assert s.log[..|s.log|] == s.log;
    if s.ops[o].applied != -1 { assert Replied(s.log, s.ops[o].applied); }
  }

  // An applied write is ErrMaybe's only doubt: without losses a Put never returns it.
  ghost predicate NoLoss(actions: seq<Action>) {
    forall i :: 0 <= i < |actions| ==> !Lossy(actions[i])
  }

  lemma {:induction false} NoLossNoMaybe(states: seq<State>, actions: seq<Action>, i: nat)
    requires IsTrace(states, actions) && NoLoss(actions) && i <= |actions|
    ensures forall c :: 0 <= c < |states[i].phase| && !states[i].phase[c].Idle? ==> states[i].phase[c].first
    ensures forall o :: 0 <= o < |states[i].ops| && states[i].ops[o].done.Some? ==>
      states[i].ops[o].done.value.out.err != ErrMaybe
  {
    if i > 0 {
      NoLossNoMaybe(states, actions, i - 1);
      TraceInv(states, actions, i - 1);
      var s, a := states[i - 1], actions[i - 1];
      if a.Return? {
        assert PhaseInv(s, a.c);
        var o := s.phase[a.c].op;
        assert OpInv(s, o);
        assert Replied(s.log, s.ops[o].last);
      }
    }
  }

  // ----- Exactly what an operation returns -----

  // A message of client c was lost by one of these actions.
  ghost predicate Lost(actions: seq<Action>, c: nat, from: nat, to: nat)
    requires to <= |actions|
  {
    exists i :: from <= i < to && Lossy(actions[i]) && actions[i].c == c
  }

  // Client c invokes an operation at a and has not returned from it before k.
  ghost predicate Busy(actions: seq<Action>, c: nat, a: nat, k: nat)
    requires a < k <= |actions|
  {
    && actions[a].Invoke? && actions[a].c == c
    && forall i :: a < i < k ==> !(actions[i].Return? && actions[i].c == c)
  }

  lemma LostMore(actions: seq<Action>, c: nat, from: nat, to: nat)
    requires from <= to < |actions|
    ensures Lost(actions, c, from, to + 1) <==> Lost(actions, c, from, to) || (Lossy(actions[to]) && actions[to].c == c)
  {
    if Lossy(actions[to]) && actions[to].c == c { assert Lost(actions, c, from, to + 1); }
  }

  // While it is busy, a client is in its first call exactly if it has lost no message yet.
  lemma {:induction false} FirstMeansNoLoss(states: seq<State>, actions: seq<Action>, c: nat, a: nat, k: nat)
    requires IsTrace(states, actions) && a < k <= |actions| && Busy(actions, c, a, k)
    ensures c < |states[k].phase| && !states[k].phase[c].Idle? && states[k].phase[c].op == |states[a].ops|
    ensures |states[a].ops| < |states[k].ops| && states[k].ops[|states[a].ops|].input == actions[a].input
    ensures states[k].phase[c].first <==> !Lost(actions, c, a + 1, k)
  {
    assert Enabled(states[k - 1], actions[k - 1]) && states[k] == Next(states[k - 1], actions[k - 1]);
    if k > a + 1 {
      FirstMeansNoLoss(states, actions, c, a, k - 1);
      LostMore(actions, c, a + 1, k - 1);
    }
  }

  // What a Put returns is the answer of its last run, ErrMaybe standing for ErrVersion exactly if
  // a message of it was lost.
  lemma PutReturns(states: seq<State>, actions: seq<Action>, c: nat, a: nat, b: nat)
    requires IsTrace(states, actions) && a < b < |actions| && Busy(actions, c, a, b)
    requires actions[b] == Return(c) && actions[a].input.Put?
    ensures Enabled(states[b], Return(c))
    ensures var op := states[b].ops[states[b].phase[c].op];
      && op.input == actions[a].input && 0 <= op.last < |states[b].log|
      && var err := states[b].log[op.last].reply.err;
         Result(states[b], c).err == if err == ErrVersion && Lost(actions, c, a + 1, b) then ErrMaybe else err
  {
    assert Enabled(states[b], actions[b]);
    TraceInv(states, actions, b);
    FirstMeansNoLoss(states, actions, c, a, b);
    assert PhaseInv(states[b], c);
  }

  // A call that loses nothing and that nobody comes in between is the handler's answer.
  lemma UndisturbedCall(s: State, c: nat, input: Input) returns (s1: State, s2: State, s3: State)
    requires c < |s.phase| && s.phase[c] == Idle
    ensures Enabled(s, Invoke(c, input)) && s1 == Next(s, Invoke(c, input))
    ensures Enabled(s1, Execute(c)) && s2 == Next(s1, Execute(c))
    ensures Enabled(s2, Return(c)) && s3 == Next(s2, Return(c))
    ensures Result(s2, c) == s.server.Handle(input).1 && s3.server == s.server.Handle(input).0
    ensures s3.phase == s.phase
  {
    s1 := Next(s, Invoke(c, input));
    s2 := Next(s1, Execute(c));
    s3 := Next(s2, Return(c));
  }
}
