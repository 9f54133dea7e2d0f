// The whole history, over all keys at once, has one order that respects real time, that a store
// of many keys accepts, and in which every read also returned the version at its point.

module StoreLinearizability {
  import opened Collections
  import opened KvTypes
  import opened KvLog
  import opened KvSystem
  import opened KvModel
  import opened Linearizability
  import opened Partition

  ghost function AllKeys(): iset<string> {
    iset k: string | |k| >= 0
  }

  // Position i of the history is no read, or a read of its key's version at that point.
  ghost predicate ReadsVersion(h: seq<Operation>, i: nat)
    requires i < |h|
  {
    var op := h[i];
    op.input.op == 0 ==>
      AcceptAll(h[..i]).Some? && op.output.version == StateAt(AcceptAll(h[..i]).value, op.input.key).version
  }

  ghost predicate AcceptedWithVersions(h: seq<Operation>) {
    AcceptAll(h).Some? && forall i :: 0 <= i < |h| ==> ReadsVersion(h, i)
  }

  ghost predicate IsStoreOrder(ops: seq<Op>, order: seq<nat>, outs: seq<Reply>) {
    && Complete(ops, AllKeys(), order, outs)
    && RealTime(ops, order)
    && AcceptedWithVersions(History(ops, order, outs))
  }

  ghost predicate StoreLinearizable(ops: seq<Op>) {
    exists order, outs :: IsStoreOrder(ops, order, outs)
  }

  ghost predicate NeverNoKey(ops: seq<Op>) {
    forall key :: NoErrNoKey(ops, key)
  }

  // The history is accepted, and leaves each key as the server has it.
  ghost predicate Matches(h: seq<Operation>, sv: Server) {
    AcceptedWithVersions(h) && forall key :: StateAt(AcceptAll(h).value, key) == KeyState(sv, key)
  }

  lemma AppendOne(h: seq<Operation>, op: Operation, before: Server, after: Server)
    requires Matches(h, before)
    requires Step(KeyState(before, op.input.key), op.input, op.output) == Some(KeyState(after, op.input.key))
    requires op.input.op == 0 ==> op.output.version == before.Version(op.input.key)
    requires forall key :: key != op.input.key ==> KeyState(after, key) == KeyState(before, key)
    ensures Matches(h + [op], after)
  {
    var more := h + [op];
    assert more[..|h|] == h;
    forall i | 0 <= i < |more| ensures ReadsVersion(more, i) {
      if i < |h| {
        assert more[..i] == h[..i];
        assert ReadsVersion(h, i);
      }
    }
  }

  // A read that takes effect at a run returned the version the key had then.
  lemma PointVersion(s: State, i: nat)
    requires Inv(s) && i < |s.log| && IsPoint(s, AllKeys(), i) && s.log[i].input.Get?
    ensures OutOf(s.ops[s.log[i].op]).version == Replay(s.log[..i]).Version(s.log[i].input.key)
  {
    assert OpInv(s, s.log[i].op);
    assert Replied(s.log, i);
  }

  // What one run does to every key: a step of the model where an operation takes effect, nothing
  // anywhere else.
  lemma RunOnKeys(s: State, i: nat)
    requires Inv(s) && NeverNoKey(s.ops) && i < |s.log|
    ensures s.log[i].op < |s.ops|
    ensures var before, after, input := Replay(s.log[..i]), Replay(s.log[..i + 1]), s.log[i].input;
      && (forall key :: key != input.key ==> KeyState(after, key) == KeyState(before, key))
      && if IsPoint(s, AllKeys(), i) then
           Step(KeyState(before, input.key), ModelInput(input), ModelOutput(OutOf(s.ops[s.log[i].op])))
             == Some(KeyState(after, input.key))
         else KeyState(after, input.key) == KeyState(before, input.key)
  {
    assert NoErrNoKey(s.ops, s.log[i].input.key);
    var out := OutOf(s.ops[s.log[i].op]);
    RunIsStep(s, s.log[i].input.key, i, out);
    forall key | key != s.log[i].input.key
      ensures KeyState(Replay(s.log[..i + 1]), key) == KeyState(Replay(s.log[..i]), key)
    {
      assert NoErrNoKey(s.ops, key);
      RunIsStep(s, key, i, out);
    }
  }

  ghost function HistoryTo(s: State, n: nat): seq<Operation>
    requires n <= |s.log| && AreOps(s.ops, Order(s, AllKeys(), n))
  {
    var order := Order(s, AllKeys(), n);
    History(s.ops, order, Outs(s.ops, order))
  }

  lemma HistoryStep(s: State, n: nat)
    requires Inv(s) && n < |s.log|
    requires AreOps(s.ops, Order(s, AllKeys(), n)) && AreOps(s.ops, Order(s, AllKeys(), n + 1))
    ensures s.log[n].op < |s.ops|
    ensures HistoryTo(s, n + 1) ==
      if IsPoint(s, AllKeys(), n)
      then HistoryTo(s, n) + [Operation(ModelInput(s.log[n].input), ModelOutput(OutOf(s.ops[s.log[n].op])))]
      else HistoryTo(s, n)
  {
    var o := s.log[n].op;
    if IsPoint(s, AllKeys(), n) {
      assert s.ops[o].input == s.log[n].input;
      assert Order(s, AllKeys(), n + 1) == Order(s, AllKeys(), n) + [o];
      assert HistoryTo(s, n + 1) == HistoryTo(s, n)
        + [Operation(ModelInput(s.log[n].input), ModelOutput(OutOf(s.ops[o])))];
    }
  }

  lemma {:induction false} OrderMatches(s: State, n: nat)
    requires Inv(s) && NeverNoKey(s.ops) && n <= |s.log|
    ensures AreOps(s.ops, Order(s, AllKeys(), n)) && Matches(HistoryTo(s, n), Replay(s.log[..n]))
  {
    OrderMembers(s, AllKeys(), n);
    if n > 0 {
      OrderMatches(s, n - 1);
      HistoryStep(s, n - 1);
      RunOnKeys(s, n - 1);
      if IsPoint(s, AllKeys(), n - 1) {
        var e := s.log[n - 1];
        if e.input.Get? { PointVersion(s, n - 1); }
        AppendOne(HistoryTo(s, n - 1), Operation(ModelInput(e.input), ModelOutput(OutOf(s.ops[e.op]))),
                  Replay(s.log[..n - 1]), Replay(s.log[..n]));
      } else {
        SameStore(HistoryTo(s, n - 1), Replay(s.log[..n - 1]), Replay(s.log[..n]));
      }
    }
  }

  lemma SameStore(h: seq<Operation>, before: Server, after: Server)
    requires Matches(h, before) && forall key :: KeyState(after, key) == KeyState(before, key)
    ensures Matches(h, after)
  {
  }

  // A put answered ErrNoKey is refused by the store as well.
  lemma {:induction false} NoKeyRefused(h: seq<Operation>, i: nat)
    requires i < |h| && h[i].input.op == 1 && h[i].output.err == ErrNoKey
    ensures AcceptAll(h).None?
  {
    if i < |h| - 1 { NoKeyRefused(h[..|h| - 1], i); }
  }

  // In every run, the whole history is linearizable, versions of reads included, exactly when no
  // put has returned ErrNoKey.
  lemma StoreLinearizableIff(s: State)
    requires Reachable(s)
    ensures StoreLinearizable(s.ops) <==> NeverNoKey(s.ops)
  {
    ReachableInv(s);
    if NeverNoKey(s.ops) {
      var order := Order(s, AllKeys(), |s.log|);
      OrderComplete(s, AllKeys());
      OrderRealTime(s, AllKeys());
      OrderMatches(s, |s.log|);
      assert IsStoreOrder(s.ops, order, Outs(s.ops, order));
    }
    if StoreLinearizable(s.ops) {
      var order, outs :| IsStoreOrder(s.ops, order, outs);
      forall o | 0 <= o < |s.ops| && s.ops[o].input.Put? && s.ops[o].done.Some?
        ensures s.ops[o].done.value.out.err != ErrNoKey
      {
        assert s.ops[o].input.key in AllKeys();
        var i :| 0 <= i < |order| && order[i] == o;
        if s.ops[o].done.value.out.err == ErrNoKey {
          NoKeyRefused(History(s.ops, order, outs), i);
        }
      }
    }
  }
}
