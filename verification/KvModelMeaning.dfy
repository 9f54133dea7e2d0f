// What the sequential model of the store accepts: one operation is judged against the server's
// handler, and a whole history against the writes that take effect in it.

module KvModelMeaning {
  import opened Collections
  import opened KvTypes
  import opened KvModel
  import opened Linearizability
  import KvSystem

  // A get is accepted if and only if its value is the one the handler returns, and changes nothing.
  lemma GetAccepted(sv: Server, key: string, out: KvOutput)
    ensures Step(KeyState(sv, key), ModelInput(Get(key)), out) ==
      if out.value == sv.Handle(Get(key)).1.value then Some(KeyState(sv, key)) else None
    ensures sv.Handle(Get(key)).0 == sv
  {
  }

  // A put is accepted if and only if its error is ErrMaybe or the handler's, where the model has
  // ErrVersion for the handler's ErrNoKey. The next state is then the handler's.
  lemma PutAccepted(sv: Server, key: string, value: Value, version: nat, out: KvOutput)
    requires sv.Valid()
    ensures var (sv', reply) := sv.Handle(Put(key, value, version));
      Step(KeyState(sv, key), ModelInput(Put(key, value, version)), out) ==
        if out.err == ErrMaybe || out.err == (if reply.err == ErrNoKey then ErrVersion else reply.err)
        then Some(KeyState(sv', key)) else None
  {
  }

  // Nothing else is an operation.
  lemma OthersRejected(st: KvState, inp: KvInput, out: KvOutput)
    requires inp.op != 0 && inp.op != 1
    ensures Step(st, inp, out) == None
  {
  }

  // ----- Whole histories -----

  // The version of the key before operation i: how many puts have taken effect.
  ghost function VersionAt(h: seq<Operation>, i: nat): nat
    requires i <= |h|
    decreases i, 0
  {
    if i == 0 then 0 else VersionAt(h, i - 1) + (if TakesEffect(h, i - 1) then 1 else 0)
  }

  // A put takes effect when it is made at the version the key then has.
  ghost predicate TakesEffect(h: seq<Operation>, i: nat)
    requires i < |h|
    decreases i, 1
  {
    h[i].input.op == 1 && h[i].input.version == VersionAt(h, i)
  }

  // Put k is the last to take effect before operation i.
  ghost predicate LastWrite(h: seq<Operation>, k: nat, i: nat)
    requires i < |h|
  {
    k < i && TakesEffect(h, k) && forall m :: k < m < i ==> !TakesEffect(h, m)
  }

  ghost predicate NoWriteBefore(h: seq<Operation>, i: nat)
    requires i < |h|
  {
    forall m :: 0 <= m < i ==> !TakesEffect(h, m)
  }

  // A get returned the value of the last put to take effect before it, or the empty string if
  // there is none. A put that takes effect was OK or ErrMaybe, one that does not ErrVersion or
  // ErrMaybe.
  ghost predicate RightAnswer(h: seq<Operation>, i: nat)
    requires i < |h|
  {
    var (input, output) := (h[i].input, h[i].output);
    if input.op == 0 then
      || (NoWriteBefore(h, i) && output.value == Text(""))
      || (exists k: nat :: LastWrite(h, k, i) && output.value == h[k].input.value)
    else
      && input.op == 1
      && (output.err == ErrMaybe || output.err == if TakesEffect(h, i) then OK else ErrVersion)
  }

  // The value of the key before operation i, taken write by write.
  ghost function ValueAt(h: seq<Operation>, i: nat): Value
    requires i <= |h|
  {
    if i == 0 then Text("") else if TakesEffect(h, i - 1) then h[i - 1].input.value else ValueAt(h, i - 1)
  }

  lemma {:induction false} ValueIsLastWrite(h: seq<Operation>, i: nat) returns (k: nat)
    requires i < |h|
    ensures if NoWriteBefore(h, i) then ValueAt(h, i) == Text("")
            else LastWrite(h, k, i) && ValueAt(h, i) == h[k].input.value
  {
    k := 0;
    if i > 0 {
      if TakesEffect(h, i - 1) {
        k := i - 1;
      } else {
        k := ValueIsLastWrite(h, i - 1);
      }
    }
  }

  lemma OneLastWrite(h: seq<Operation>, j: nat, k: nat, i: nat)
    requires i < |h| && LastWrite(h, j, i) && LastWrite(h, k, i)
    ensures j == k
  {
  }

  // A get is answered right exactly when it returned the value the key then has.
  lemma {:induction false} GetAnswer(h: seq<Operation>, i: nat)
    requires i < |h| && h[i].input.op == 0
    ensures RightAnswer(h, i) <==> h[i].output.value == ValueAt(h, i)
  {
    var k := ValueIsLastWrite(h, i);
    if NoWriteBefore(h, i) {
      assert forall j: nat :: !LastWrite(h, j, i);
    } else {
      assert LastWrite(h, k, i) && TakesEffect(h, k);
      forall j: nat | LastWrite(h, j, i) ensures j == k { OneLastWrite(h, j, k, i); }
    }
  }

  // The model accepts an operation exactly when it is answered right.
  lemma {:induction false} AnswerIsStep(h: seq<Operation>, i: nat)
    requires i < |h|
    ensures Step(KvState(ValueAt(h, i), VersionAt(h, i)), h[i].input, h[i].output) ==
      if RightAnswer(h, i) then Some(KvState(ValueAt(h, i + 1), VersionAt(h, i + 1))) else None
  {
    if h[i].input.op == 0 { GetAnswer(h, i); }
  }

  ghost predicate AllRight(h: seq<Operation>, n: nat)
    requires n <= |h|
  {
    forall i :: 0 <= i < n ==> RightAnswer(h, i)
  }

  lemma {:induction false} AcceptTo(h: seq<Operation>, n: nat)
    requires n <= |h|
    ensures Accept(h[..n]) == if AllRight(h, n) then Some(KvState(ValueAt(h, n), VersionAt(h, n))) else None
  {
    if n > 0 {
      AcceptTo(h, n - 1);
      AnswerIsStep(h, n - 1);
      assert h[..n][..n - 1] == h[..n - 1];
      assert AllRight(h, n) <==> AllRight(h, n - 1) && RightAnswer(h, n - 1);
    }
  }

  // The model accepts a history on one key if and only if every operation in it is answered right.
  lemma {:induction false} AcceptedIff(h: seq<Operation>)
    ensures Accept(h).Some? <==> forall i :: 0 <= i < |h| ==> RightAnswer(h, i)
  {
    AcceptTo(h, |h|);
    assert h[..|h|] == h;
  }

  // Said without the model: a key's history is linearizable exactly if its operations have an
  // order that respects real time and in which every one is answered right.
  lemma LinearizableMeans(ops: seq<KvSystem.Op>, key: string)
    ensures Linearizable(ops, key) <==> exists order, outs :: AnsweredRightIn(ops, key, order, outs)
  {
    forall order, outs | Complete(ops, iset{key}, order, outs)
      ensures IsLinearization(ops, key, order, outs) <==> AnsweredRightIn(ops, key, order, outs)
    {
      AcceptedIff(History(ops, order, outs));
    }
  }

  ghost predicate AnsweredRightIn(ops: seq<KvSystem.Op>, key: string, order: seq<nat>, outs: seq<Reply>) {
    && Complete(ops, iset{key}, order, outs) && RealTime(ops, order)
    && forall i :: 0 <= i < |order| ==> RightAnswer(History(ops, order, outs), i)
  }
}
