// Every history of Clerk operations over the lossy network has, for each key, one order that
// respects real time and that the sequential model accepts.

module Linearizability {
  import opened Collections
  import opened KvTypes
  import opened KvLog
  import opened KvSystem
  import opened KvModel

  // ----- What it means -----

  function ModelInput(input: Input): KvInput {
    match input
    case Get(key) => KvInput(0, key, NoValue, 0)
    case Put(key, value, version) => KvInput(1, key, value, version)
  }

  function ModelOutput(r: Reply): KvOutput {
    KvOutput(r.value, r.version, r.err)
  }

  ghost predicate AreOps(ops: seq<Op>, order: seq<nat>) {
    forall i :: 0 <= i < |order| ==> order[i] < |ops|
  }

  // order lists operations of the history on these keys: all the finished ones, and possibly some
  // that have not returned; outs gives each an output, the recorded one if it finished.
  ghost predicate Complete(ops: seq<Op>, keys: iset<string>, order: seq<nat>, outs: seq<Reply>) {
    && |outs| == |order|
    && AreOps(ops, order)
    && (forall i :: 0 <= i < |order| ==> ops[order[i]].input.key in keys)
    && (forall i, j :: 0 <= i < j < |order| ==> order[i] != order[j])
    && (forall o :: 0 <= o < |ops| && ops[o].input.key in keys && ops[o].done.Some? ==> o in order)
    && (forall i :: 0 <= i < |order| && ops[order[i]].done.Some? ==> outs[i] == ops[order[i]].done.value.out)
  }

  // No operation comes after one that was invoked only once it had returned.
  ghost predicate RealTime(ops: seq<Op>, order: seq<nat>)
    requires AreOps(ops, order)
  {
    forall i, j :: 0 <= i < j < |order| && ops[order[j]].done.Some? ==>
      ops[order[i]].inv < ops[order[j]].done.value.ret
  }

  ghost function History(ops: seq<Op>, order: seq<nat>, outs: seq<Reply>): (h: seq<Operation>)
    requires |outs| == |order|
    requires AreOps(ops, order)
    ensures |h| == |order|
  {
    seq(|order|, i requires 0 <= i < |order| => Operation(ModelInput(ops[order[i]].input), ModelOutput(outs[i])))
  }

  // The order of the operations on one key.
  ghost predicate IsLinearization(ops: seq<Op>, key: string, order: seq<nat>, outs: seq<Reply>) {
    && Complete(ops, iset{key}, order, outs)
    && RealTime(ops, order)
    && Accept(History(ops, order, outs)).Some?
  }

  ghost predicate Linearizable(ops: seq<Op>, key: string) {
    exists order, outs :: IsLinearization(ops, key, order, outs)
  }

  // ----- The order: by the run at which each operation takes effect -----

  // The log position at which o takes effect: its applied write, or else its last run once it
  // has returned.
  ghost function Point(op: Op): int {
    if op.applied != -1 then op.applied else if op.done.Some? then op.last else -1
  }

  ghost predicate IsPoint(s: State, keys: iset<string>, i: nat)
    requires i < |s.log|
  {
    s.log[i].op < |s.ops| && s.log[i].input.key in keys && Point(s.ops[s.log[i].op]) == i
  }

  ghost function Order(s: State, keys: iset<string>, n: nat): (order: seq<nat>)
    requires n <= |s.log|
  {
    if n == 0 then []
    else if IsPoint(s, keys, n - 1) then Order(s, keys, n - 1) + [s.log[n - 1].op]
    else Order(s, keys, n - 1)
  }

  // An unfinished operation in the order is a write that was applied; it is given the output OK.
  ghost function OutOf(op: Op): Reply {
    if op.done.Some? then op.done.value.out else Reply(NoValue, 0, OK)
  }

  ghost function Outs(ops: seq<Op>, order: seq<nat>): (outs: seq<Reply>)
    requires AreOps(ops, order)
    ensures |outs| == |order|
  {
    seq(|order|, i requires 0 <= i < |order| => OutOf(ops[order[i]]))
  }

  // The members of the order are operations on the keys that take effect among the first n
  // runs, in the order of those runs.
  ghost predicate ByPoint(s: State, keys: iset<string>, n: nat, order: seq<nat>)
    requires AreOps(s.ops, order)
  {
    && (forall i :: 0 <= i < |order| ==> s.ops[order[i]].input.key in keys)
    && (forall i :: 0 <= i < |order| ==> 0 <= Point(s.ops[order[i]]) < n)
    && (forall i, j :: 0 <= i < j < |order| ==> Point(s.ops[order[i]]) < Point(s.ops[order[j]]))
  }

  lemma {:induction false} OrderMembers(s: State, keys: iset<string>, n: nat)
    requires Inv(s) && n <= |s.log|
    ensures AreOps(s.ops, Order(s, keys, n)) && ByPoint(s, keys, n, Order(s, keys, n))
  {
    if n > 0 {
      OrderMembers(s, keys, n - 1);
      var shorter, order := Order(s, keys, n - 1), Order(s, keys, n);
      forall i | 0 <= i < |order|
        ensures order[i] < |s.ops| && s.ops[order[i]].input.key in keys && 0 <= Point(s.ops[order[i]]) < n
      {
        if i < |shorter| { assert order[i] == shorter[i]; }
      }
      forall i, j | 0 <= i < j < |order| ensures Point(s.ops[order[i]]) < Point(s.ops[order[j]]) {
        assert order[i] == shorter[i];
        if j < |shorter| { assert order[j] == shorter[j]; }
      }
    }
  }

  lemma {:induction false} OrderHas(s: State, keys: iset<string>, n: nat, o: nat)
    requires Inv(s) && n <= |s.log| && o < |s.ops| && s.ops[o].input.key in keys
    requires 0 <= Point(s.ops[o]) < n
    ensures o in Order(s, keys, n)
  {
    assert OpInv(s, o);
    if Point(s.ops[o]) < n - 1 {
      OrderHas(s, keys, n - 1, o);
    } else {
      assert IsRun(s, o, n - 1);
    }
  }

  lemma {:induction false} OrderComplete(s: State, keys: iset<string>)
    requires Inv(s)
    ensures var order := Order(s, keys, |s.log|);
      AreOps(s.ops, order) && Complete(s.ops, keys, order, Outs(s.ops, order))
  {
    OrderMembers(s, keys, |s.log|);
    forall o | 0 <= o < |s.ops| && s.ops[o].input.key in keys && s.ops[o].done.Some?
      ensures o in Order(s, keys, |s.log|)
    {
      assert OpInv(s, o);
      OrderHas(s, keys, |s.log|, o);
    }
  }

  // An operation that takes effect earlier was invoked before the later one returned.
  lemma PointsInRealTime(s: State, o: nat, o': nat)
    requires Inv(s) && o < |s.ops| && o' < |s.ops| && s.ops[o'].done.Some?
    requires 0 <= Point(s.ops[o]) < Point(s.ops[o'])
    ensures s.ops[o].inv < s.ops[o'].done.value.ret
  {
    var p, q := Point(s.ops[o]), Point(s.ops[o']);
    assert OpInv(s, o) && OpInv(s, o');
    assert IsRun(s, o, p) && IsRun(s, o', q) && q <= s.ops[o'].last;
    assert s.log[p].at < s.log[q].at <= s.log[s.ops[o'].last].at;
  }

  lemma {:induction false} OrderRealTime(s: State, keys: iset<string>)
    requires Inv(s)
    ensures AreOps(s.ops, Order(s, keys, |s.log|)) && RealTime(s.ops, Order(s, keys, |s.log|))
  {
    var order := Order(s, keys, |s.log|);
    OrderMembers(s, keys, |s.log|);
    forall i, j | 0 <= i < j < |order| && s.ops[order[j]].done.Some?
      ensures s.ops[order[i]].inv < s.ops[order[j]].done.value.ret
    {
      PointsInRealTime(s, order[i], order[j]);
    }
  }

  // ----- The model accepts it -----

  ghost function KeyState(sv: Server, key: string): KvState {
    KvState(sv.Value(key), sv.Version(key))
  }

  ghost predicate NoErrNoKey(ops: seq<Op>, key: string) {
    forall o :: 0 <= o < |ops| && ops[o].input.key == key && ops[o].input.Put? && ops[o].done.Some? ==>
      ops[o].done.value.out.err != ErrNoKey
  }

  // A run at which no operation takes effect leaves the key as it was; one at which an
  // operation takes effect is a step of the model with that operation's output.
  lemma RunIsStep(s: State, key: string, i: nat, out: Reply)
    requires Inv(s) && i < |s.log| && NoErrNoKey(s.ops, key)
    requires IsPoint(s, iset{key}, i) ==> out == OutOf(s.ops[s.log[i].op])
    ensures var before, after := KeyState(Replay(s.log[..i]), key), KeyState(Replay(s.log[..i + 1]), key);
      if IsPoint(s, iset{key}, i) then
        Step(before, ModelInput(s.log[i].input), ModelOutput(out)) == Some(after)
      else
        after == before
  {
    var e := s.log[i];
    ReplayStep(s.log, i);
    assert Replied(s.log, i);
    assert OpInv(s, e.op) && IsRun(s, e.op, i);
  }

  lemma {:induction false} AcceptMore(h: seq<Operation>, op: Operation, st: KvState)
    requires Accept(h) == Some(st)
    ensures Accept(h + [op]) == Step(st, op.input, op.output)
  {
    assert (h + [op])[..|h|] == h;
  }

  // One more run adds at most one operation to the order, and the model accepts it.
  lemma OrderStep(s: State, key: string, n: nat)
    requires Inv(s) && n < |s.log| && NoErrNoKey(s.ops, key)
    requires AreOps(s.ops, Order(s, iset{key}, n)) && AreOps(s.ops, Order(s, iset{key}, n + 1))
    requires var order := Order(s, iset{key}, n);
      Accept(History(s.ops, order, Outs(s.ops, order))) == Some(KeyState(Replay(s.log[..n]), key))
    ensures var order := Order(s, iset{key}, n + 1);
      Accept(History(s.ops, order, Outs(s.ops, order))) == Some(KeyState(Replay(s.log[..n + 1]), key))
  {
    var shorter, order := Order(s, iset{key}, n), Order(s, iset{key}, n + 1);
    if IsPoint(s, iset{key}, n) {
      assert order == shorter + [s.log[n].op];
      var outs := Outs(s.ops, order);
      var op := Operation(ModelInput(s.log[n].input), ModelOutput(outs[|shorter|]));
      assert History(s.ops, order, outs) == History(s.ops, shorter, Outs(s.ops, shorter)) + [op];
      RunIsStep(s, key, n, outs[|shorter|]);
      AcceptMore(History(s.ops, shorter, Outs(s.ops, shorter)), op, KeyState(Replay(s.log[..n]), key));
    } else {
      RunIsStep(s, key, n, Reply(NoValue, 0, OK));
    }
  }

  lemma {:induction false} OrderAccepted(s: State, key: string, n: nat)
    requires Inv(s) && n <= |s.log| && NoErrNoKey(s.ops, key)
    ensures var order := Order(s, iset{key}, n);
      && AreOps(s.ops, order)
      && Accept(History(s.ops, order, Outs(s.ops, order))) == Some(KeyState(Replay(s.log[..n]), key))
  {
    OrderMembers(s, iset{key}, n);
    if n > 0 {
      OrderAccepted(s, key, n - 1);
      OrderStep(s, key, n - 1);
    }
  }

  // The model has no outcome for a put that returned ErrNoKey.
  lemma {:induction false} NoKeyRejected(h: seq<Operation>, i: nat)
    requires i < |h| && h[i].input.op == 1 && h[i].output.err == ErrNoKey
    ensures Accept(h).None?
  {
    if i < |h| - 1 { NoKeyRejected(h[..|h| - 1], i); }
  }

  // In every run, the history of each key is linearizable exactly when no put on that key has
  // returned ErrNoKey.
  lemma LinearizableIff(s: State, key: string)
    requires Reachable(s)
    ensures Linearizable(s.ops, key) <==> NoErrNoKey(s.ops, key)
  {
    ReachableInv(s);
    if NoErrNoKey(s.ops, key) {
      var order := Order(s, iset{key}, |s.log|);
      OrderComplete(s, iset{key});
      OrderRealTime(s, iset{key});
      OrderAccepted(s, key, |s.log|);
      assert IsLinearization(s.ops, key, order, Outs(s.ops, order));
    }
    if Linearizable(s.ops, key) {
      var order, outs :| IsLinearization(s.ops, key, order, outs);
      forall o | 0 <= o < |s.ops| && s.ops[o].input.key == key && s.ops[o].input.Put? && s.ops[o].done.Some?
        ensures s.ops[o].done.value.out.err != ErrNoKey
      {
        var i :| 0 <= i < |order| && order[i] == o;
        if s.ops[o].done.value.out.err == ErrNoKey {
          NoKeyRejected(History(s.ops, order, outs), i);
        }
      }
    }
  }

  // ----- When that is -----

  // The guard of the server's refusal: at the run that answered it, a put with a version other
  // than 0 found the key.
  ghost predicate FoundKey(s: State, key: string, o: nat)
    requires o < |s.ops|
  {
    var op := s.ops[o];
    op.input.Put? && op.input.key == key && op.done.Some? && op.input.version != 0 ==>
      0 <= op.last < |s.log| && key in Replay(s.log[..op.last]).data
  }

  lemma FoundKeyMeans(s: State, key: string, o: nat)
    requires Inv(s) && o < |s.ops|
    requires s.ops[o].input.Put? && s.ops[o].input.key == key && s.ops[o].done.Some?
    ensures FoundKey(s, key, o) <==> s.ops[o].done.value.out.err != ErrNoKey
  {
    assert OpInv(s, o);
    assert Replied(s.log, s.ops[o].last);
  }

  // In every run, the history of each key is linearizable exactly when no put at a version
  // other than 0 was last run while the key was absent.
  lemma LinearizableIffFound(s: State, key: string)
    requires Reachable(s)
    ensures Linearizable(s.ops, key) <==> forall o :: 0 <= o < |s.ops| ==> FoundKey(s, key, o)
  {
    ReachableInv(s);
    LinearizableIff(s, key);
    forall o | 0 <= o < |s.ops| && s.ops[o].input.Put? && s.ops[o].input.key == key && s.ops[o].done.Some?
      ensures FoundKey(s, key, o) <==> s.ops[o].done.value.out.err != ErrNoKey
    {
      FoundKeyMeans(s, key, o);
    }
  }

  // It does happen: one undisturbed put at a version other than 0, as a client's first operation,
  // is answered ErrNoKey and leaves a history that is not linearizable.
  lemma FirstPutNotLinearizable(s: State, key: string, value: Value, version: nat)
    returns (states: seq<State>, actions: seq<Action>)
    requires Init(s) && |s.phase| > 0 && version != 0
    ensures IsTrace(states, actions) && states[0] == s && |actions| == 3
    ensures actions == [Invoke(0, Put(key, value, version)), Execute(0), Return(0)]
    ensures !Linearizable(states[3].ops, key)
  {
    actions := [Invoke(0, Put(key, value, version)), Execute(0), Return(0)];
    var s1 := Next(s, actions[0]);
    var s2 := Next(s1, actions[1]);
    var s3 := Next(s2, actions[2]);
    states := [s, s1, s2, s3];
    assert states[3] == states[|actions|];
    assert Reachable(s3);
    LinearizableIff(s3, key);
    assert s3.ops[0].done == Some(Done(Reply(NoValue, 0, ErrNoKey), s2.now));
  }

  // A write on the key was applied before this time.
  ghost predicate KnownBefore(log: seq<Exec>, key: string, time: nat) {
    exists i :: 0 <= i < |log| && log[i].at < time && log[i].input.key == key && Applied(log[i])
  }

  ghost predicate UsesKnownKey(s: State, key: string, op: Op) {
    op.input.Put? && op.input.key == key && op.input.version != 0 ==> KnownBefore(s.log, key, op.inv)
  }

  // A key known before a run is there at that run.
  lemma KnownIsThere(log: seq<Exec>, key: string, j: nat)
    requires WellLogged(log) && j < |log| && KnownBefore(log, key, log[j].at)
    ensures key in Replay(log[..j]).data
  {
    var i :| 0 <= i < |log| && log[i].at < log[j].at && log[i].input.key == key && Applied(log[i]);
    assert i < j;
    assert Replied(log, i);
    ReplayStep(log, i);
    VersionsGrow(log, i + 1, j, key);
  }

  lemma KnownKeyFound(s: State, key: string, o: nat)
    requires Inv(s) && o < |s.ops| && UsesKnownKey(s, key, s.ops[o])
    ensures FoundKey(s, key, o)
  {
    var op := s.ops[o];
    assert OpInv(s, o);
    if op.input.Put? && op.input.key == key && op.done.Some? && op.input.version != 0 {
      assert IsRun(s, o, op.last) && op.inv <= s.log[op.last].at;
      KnownIsThere(s.log, key, op.last);
    }
  }

  // Clients that use versions other than 0 only for keys already written are never refused for
  // want of the key, so their history is linearizable whatever the network loses.
  lemma KnownKeysLinearizable(s: State, key: string)
    requires Reachable(s)
    requires forall o :: 0 <= o < |s.ops| ==> UsesKnownKey(s, key, s.ops[o])
    ensures Linearizable(s.ops, key)
  {
    ReachableInv(s);
    LinearizableIffFound(s, key);
    forall o | 0 <= o < |s.ops| ensures FoundKey(s, key, o) {
      KnownKeyFound(s, key, o);
    }
  }
}
