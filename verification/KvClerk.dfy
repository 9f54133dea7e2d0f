// The Clerk as the program writes it: one RPC, then resends until a reply arrives. What the
// network does to each call, and which requests of other clients run in between, is a script
// fixed beforehand; a script that runs out stands for a Clerk that is still retrying.

module KvClerk {
  import opened Collections
  import opened KvTypes
  import opened KvLog
  import opened KvServer

  datatype Loss = RequestLost | ReplyLost | Delivered

  // The requests of other clients that run before the call's handler would, and its fate.
  datatype Fate = Fate(others: seq<Input>, loss: Loss)

  // A handler run without its outcome. Other clients' runs carry operation id 0.
  datatype Request = Request(op: nat, input: Input)

  ghost function Sent(log: seq<Exec>): seq<Request> {
    seq(|log|, i requires 0 <= i < |log| => Request(log[i].op, log[i].input))
  }

  ghost function Others(others: seq<Input>): seq<Request> {
    seq(|others|, i requires 0 <= i < |others| => Request(0, others[i]))
  }

  // The handler runs during calls with these fates: the others' requests and, unless it was
  // lost, the call's own.
  ghost function RunsOf(fates: seq<Fate>, input: Input, me: nat): seq<Request> {
    if fates == [] then []
    else
      var fate := fates[|fates| - 1];
      RunsOf(fates[..|fates| - 1], input, me) + Others(fate.others)
      + (if fate.loss.RequestLost? then [] else [Request(me, input)])
  }

  lemma TakeOfJoin(a: seq<Fate>, b: seq<Fate>)
    requires b != []
    ensures (a + b)[|a| + |b| - 1] == b[|b| - 1] && (a + b)[..|a| + |b| - 1] == a + b[..|b| - 1]
  {
  }

  lemma Regroup(a: seq<Request>, b: seq<Request>, c: seq<Request>, d: seq<Request>)
    ensures ((a + b) + c) + d == a + ((b + c) + d)
  {
  }

  lemma {:induction false} RunsOfJoin(a: seq<Fate>, b: seq<Fate>, input: Input, me: nat)
    ensures RunsOf(a + b, input, me) == RunsOf(a, input, me) + RunsOf(b, input, me)
  {
    if b == [] {
      assert a + b == a;
    } else {
      var fate := b[|b| - 1];
      TakeOfJoin(a, b);
      RunsOfJoin(a, b[..|b| - 1], input, me);
      Regroup(RunsOf(a, input, me), RunsOf(b[..|b| - 1], input, me), Others(fate.others),
              if fate.loss.RequestLost? then [] else [Request(me, input)]);
    }
  }

  lemma SentAppend(log: seq<Exec>, e: Exec)
    ensures Sent(log + [e]) == Sent(log) + [Request(e.op, e.input)]
  {
  }

  lemma OthersMore(others: seq<Input>, n: nat)
    requires n < |others|
    ensures Others(others[..n + 1]) == Others(others[..n]) + [Request(0, others[n])]
  {
  }

  // How many calls go unanswered before the first answered one.
  function Unanswered(fates: seq<Fate>): (n: nat)
    ensures n <= |fates| && forall i :: 0 <= i < n ==> !fates[i].loss.Delivered?
    ensures n < |fates| ==> fates[n].loss.Delivered?
  {
    if fates == [] || fates[0].loss.Delivered? then 0 else 1 + Unanswered(fates[1..])
  }

  class Network {
    const server: KVServer
    var fates: seq<Fate>
    // Every handler run, in order.
    ghost var log: seq<Exec>

    ghost predicate Valid()
      reads this, server
    {
      && server.Valid()
      && WellLogged(log)
      && server.State() == Replay(log)
      && forall i :: 0 <= i < |log| ==> log[i].at == i
    }

    constructor (server: KVServer, fates: seq<Fate>)
      requires server.State() == EmptyServer
      ensures Valid() && this.server == server && this.fates == fates && log == []
    {
      this.server := server;
      this.fates := fates;
      log := [];
    }

    // One handler run on behalf of operation op.
    method Dispatch(input: Input, ghost op: nat) returns (reply: Reply)
      requires Valid()
      modifies `log, server
      ensures Valid()
      ensures log == old(log) + [Exec(op, input, reply, |old(log)|)]
    {
      match input {
        case Get(key) => reply := server.Get(key);
        case Put(key, value, version) => reply := server.Put(key, value, version);
      }
      ghost var e := Exec(op, input, reply, |log|);
      WellLoggedAppend(log, e);
      log := log + [e];
    }

    method RunOthers(others: seq<Input>)
      requires Valid()
      modifies `log, server
      ensures Valid() && old(log) <= log
      ensures Sent(log) == Sent(old(log)) + Others(others)
    {
      for n := 0 to |others|
        invariant Valid() && old(log) <= log
        invariant Sent(log) == Sent(old(log)) + Others(others[..n])
      {
        ghost var before := log;
        var reply := Dispatch(others[n], 0);
        SentAppend(before, log[|before|]);
        OthersMore(others, n);
      }
      assert others[..|others|] == others;
    }

    // One RPC: false when the request or the reply was dropped. A dropped request runs nothing;
    // otherwise the handler runs once, last, and answers.
    method Call(input: Input, ghost me: nat) returns (ok: bool, reply: Reply)
      requires Valid() && |fates| > 0 && me != 0
      modifies this, server
      ensures Valid() && old(log) <= log && fates == old(fates)[1..]
      ensures ok <==> old(fates)[0].loss.Delivered?
      ensures Sent(log) == Sent(old(log)) + Others(old(fates)[0].others)
                           + (if old(fates)[0].loss.RequestLost? then [] else [Request(me, input)])
      ensures ok ==> |old(log)| < |log| && log[|log| - 1] == Exec(me, input, reply, |log| - 1)
    {
      var fate := fates[0];
      fates := fates[1..];
      ok, reply := false, Reply(NoValue, 0, OK);
      RunOthers(fate.others);
      if fate.loss.RequestLost? {
        return;
      }
      ghost var before := log;
      reply := Dispatch(input, me);
      SentAppend(before, log[|before|]);
      ok := fate.loss.Delivered?;
    }
  }

  // What was added to the log are runs of operation me and of other clients.
  ghost predicate OnlyRuns(before: seq<Exec>, log: seq<Exec>, me: nat) {
    before <= log && forall i :: |before| <= i < |log| ==> log[i].op == 0 || log[i].op == me
  }

  lemma {:induction false} RunsAreMine(fates: seq<Fate>, input: Input, me: nat)
    ensures forall i :: 0 <= i < |RunsOf(fates, input, me)| ==>
      RunsOf(fates, input, me)[i].op == 0 || RunsOf(fates, input, me)[i] == Request(me, input)
  {
    if fates != [] { RunsAreMine(fates[..|fates| - 1], input, me); }
  }

  // Calls with these fates add runs of the request and of other clients only.
  lemma {:induction false} RunsAdded(before: seq<Exec>, log: seq<Exec>, fates: seq<Fate>, input: Input, me: nat)
    requires before <= log && me != 0 && Sent(log) == Sent(before) + RunsOf(fates, input, me)
    requires OnlyRequest(before, me, input)
    ensures OnlyRuns(before, log, me) && OnlyRequest(log, me, input)
  {
    var runs := RunsOf(fates, input, me);
    RunsAreMine(fates, input, me);
    forall i | |before| <= i < |log|
      ensures log[i].op == 0 || (log[i].op == me && log[i].input == input)
    {
      assert Sent(log)[i] == runs[i - |before|];
    }
    assert forall i :: 0 <= i < |before| ==> log[i] == before[i];
  }

  // The first n calls have been made, none of them answered.
  ghost predicate Trying(before: seq<Exec>, log: seq<Exec>, fates: seq<Fate>, left: seq<Fate>, n: nat, input: Input, me: nat) {
    && before <= log && n <= Unanswered(fates) && left == fates[n..]
    && Sent(log) == Sent(before) + RunsOf(fates[..n], input, me)
  }

  // Calls have been made up to the first answered one, whose run was the last, or all of them if
  // none is answered.
  ghost predicate CallsMade(before: seq<Exec>, log: seq<Exec>, fates: seq<Fate>, left: seq<Fate>, input: Input, me: nat) {
    var n := Unanswered(fates);
    && before <= log
    && if n == |fates| then
         left == [] && Sent(log) == Sent(before) + RunsOf(fates, input, me)
       else
         && left == fates[n + 1..]
         && Sent(log) == Sent(before) + RunsOf(fates[..n + 1], input, me)
         && |log| > 0 && log[|log| - 1].op == me && log[|log| - 1].input == input
  }

  lemma {:induction false} TryMore(before: seq<Exec>, mid: seq<Exec>, log: seq<Exec>, fates: seq<Fate>, left: seq<Fate>, n: nat,
                input: Input, me: nat)
    requires n < |fates| && Trying(before, mid, fates, fates[n..], n, input, me)
    requires mid <= log && left == fates[n..][1..]
    requires Sent(log) == Sent(mid) + Others(fates[n].others)
                          + (if fates[n].loss.RequestLost? then [] else [Request(me, input)])
    requires fates[n].loss.Delivered? ==> |log| > 0 && log[|log| - 1].op == me && log[|log| - 1].input == input
    ensures fates[n].loss.Delivered? ==> CallsMade(before, log, fates, left, input, me) && Unanswered(fates) == n
    ensures !fates[n].loss.Delivered? ==> Trying(before, log, fates, left, n + 1, input, me)
  {
    OneCallMore(fates, n, input, me);
  }

  lemma {:induction false} NoMoreTries(before: seq<Exec>, log: seq<Exec>, fates: seq<Fate>, n: nat, input: Input, me: nat)
    requires n <= |fates| && fates[n..] == [] && Trying(before, log, fates, [], n, input, me)
    ensures Unanswered(fates) == |fates| && CallsMade(before, log, fates, [], input, me)
  {
    assert fates[..n] == fates;
  }

  lemma {:induction false} FirstRuns(fates: seq<Fate>, n: nat, input: Input, me: nat)
    requires n < |fates|
    ensures fates[1..][n..] == fates[n + 1..]
    ensures RunsOf(fates[..n + 1], input, me) == RunsOf(fates[..1], input, me) + RunsOf(fates[1..][..n], input, me)
  {
    assert fates[..n + 1] == fates[..1] + fates[1..][..n];
    RunsOfJoin(fates[..1], fates[1..][..n], input, me);
  }

  lemma SentMore(a: seq<Request>, b: seq<Request>, c: seq<Request>)
    ensures (a + b) + c == a + (b + c)
  {
  }

  // An unanswered first call, and then the calls with the other fates.
  lemma {:induction false} FirstThenRest(before: seq<Exec>, mid: seq<Exec>, log: seq<Exec>, fates: seq<Fate>, left: seq<Fate>,
                      input: Input, me: nat)
    requires |fates| > 0 && Trying(before, mid, fates, fates[1..], 1, input, me)
    requires CallsMade(mid, log, fates[1..], left, input, me)
    ensures CallsMade(before, log, fates, left, input, me)
    ensures Unanswered(fates) == 1 + Unanswered(fates[1..])
  {
    var rest := fates[1..];
    var n := Unanswered(rest);
    assert Unanswered(fates) == 1 + n;
    var calls := if n == |rest| then n else n + 1;
    assert rest[..|rest|] == rest && fates[..|fates|] == fates;
    FirstRuns(fates, calls, input, me);
    SentMore(Sent(before), RunsOf(fates[..1], input, me), RunsOf(rest[..calls], input, me));
  }

  lemma {:induction false} CallsAdded(before: seq<Exec>, log: seq<Exec>, fates: seq<Fate>, left: seq<Fate>, input: Input, me: nat)
    requires me != 0 && OnlyRequest(before, me, input) && CallsMade(before, log, fates, left, input, me)
    ensures OnlyRuns(before, log, me) && OnlyRequest(log, me, input)
    ensures if Unanswered(fates) == |fates| then left == [] else |left| < |fates|
  {
    var n := Unanswered(fates);
    RunsAdded(before, log, if n == |fates| then fates else fates[..n + 1], input, me);
  }

  // If every request is lost, none of them runs.
  lemma {:induction false} LostRunsNothing(fates: seq<Fate>, input: Input, me: nat)
    requires me != 0 && forall i :: 0 <= i < |fates| ==> fates[i].loss.RequestLost?
    ensures forall i :: 0 <= i < |RunsOf(fates, input, me)| ==> RunsOf(fates, input, me)[i].op != me
  {
    if fates != [] { LostRunsNothing(fates[..|fates| - 1], input, me); }
  }

  // What the error a put returns says about the runs of its request.
  ghost predicate PutMeans(log: seq<Exec>, me: nat, err: Err) {
    match err
    case OK =>
      TimesApplied(log, me) == 1 && |log| > 0 && log[|log| - 1].op == me && Applied(log[|log| - 1])
    case ErrVersion => TimesApplied(log, me) == 0
    case ErrNoKey => TimesApplied(log, me) == 0
    case ErrMaybe => TimesApplied(log, me) <= 1
  }

  lemma {:induction false} AnsweredPut(log: seq<Exec>, me: nat, input: Input, first: bool)
    requires WellLogged(log) && input.Put? && OnlyRequest(log, me, input)
    requires |log| > 0 && log[|log| - 1].op == me
    requires first ==> forall i :: 0 <= i < |log| - 1 ==> log[i].op != me
    ensures TimesApplied(log, me) <= 1
    ensures PutMeans(log, me, ClerkReply(first, input, log[|log| - 1].reply).err)
    ensures log[|log| - 1].reply.err != ErrMaybe
  {
    var n := |log| - 1;
    ResentPut(log, me, input);
    assert Replied(log, n);
    if first { NoRunsNotApplied(log[..n], me); }
  }

  class Clerk {
    const net: Network

    constructor (net: Network)
      ensures this.net == net
    {
      this.net := net;
    }

    // The retry loop both operations share: the same request, call after call, up to the first
    // call that is answered, and the answer of that call's run.
    method Resend(input: Input, ghost me: nat) returns (r: Option<Reply>)
      requires net.Valid() && me != 0
      modifies net, net.server
      ensures net.Valid() && CallsMade(old(net.log), net.log, old(net.fates), net.fates, input, me)
      ensures r.Some? <==> Unanswered(old(net.fates)) < |old(net.fates)|
      ensures r.Some? ==> net.log[|net.log| - 1].reply == r.value
    {
      r := None;
      ghost var before, fates, n := net.log, net.fates, 0;
      while |net.fates| > 0
        invariant net.Valid() && Trying(before, net.log, fates, net.fates, n, input, me)
        decreases |net.fates|
      {
        ghost var mid := net.log;
        var ok, reply := net.Call(input, me);
        TryMore(before, mid, net.log, fates, net.fates, n, input, me);
        n := n + 1;
        if ok {
          return Some(reply);
        }
      }
      NoMoreTries(before, net.log, fates, n, input, me);
    }

    // A get that returns has the answer of a handler run on its behalf: the run of the first
    // answered call, before which nothing but the others' requests and its own have run.
    method Get(key: string, ghost me: nat) returns (r: Option<Reply>)
      requires net.Valid() && me != 0
      requires forall i :: 0 <= i < |net.log| ==> net.log[i].op != me
      modifies net, net.server
      ensures net.Valid() && OnlyRuns(old(net.log), net.log, me)
      ensures OnlyRequest(net.log, me, Input.Get(key))
      ensures if r.None? then net.fates == [] else |net.fates| < old(|net.fates|)
      ensures CallsMade(old(net.log), net.log, old(net.fates), net.fates, Input.Get(key), me)
      ensures r.Some? <==> Unanswered(old(net.fates)) < |old(net.fates)|
      ensures r.Some? ==> |net.log| > 0 && net.log[|net.log| - 1].op == me
      ensures r.Some? ==> r.value == Replay(net.log[..|net.log| - 1]).Handle(Input.Get(key)).1
    {
      ghost var fates, before := net.fates, net.log;
      r := Resend(Input.Get(key), me);
      CallsAdded(before, net.log, fates, net.fates, Input.Get(key), me);
      if r.Some? { assert Replied(net.log, |net.log| - 1); }
    }

    // The first call of a put: an answer is returned as it is, and settles whether the put was
    // applied.
    method FirstCall(input: Input, ghost me: nat) returns (ok: bool, reply: Reply)
      requires net.Valid() && me != 0 && input.Put? && |net.fates| > 0
      requires forall i :: 0 <= i < |net.log| ==> net.log[i].op != me
      modifies net, net.server
      ensures net.Valid() && OnlyRequest(net.log, me, input)
      ensures ok <==> old(net.fates[0].loss.Delivered?)
      ensures ok ==> CallsMade(old(net.log), net.log, old(net.fates), net.fates, input, me)
      ensures ok ==> Unanswered(old(net.fates)) == 0
      ensures ok ==> net.log[|net.log| - 1].reply == reply
      ensures !ok ==> Trying(old(net.log), net.log, old(net.fates), net.fates, 1, input, me)
      ensures ok ==> TimesApplied(net.log, me) <= 1 && PutMeans(net.log, me, reply.err) && reply.err != ErrMaybe
    {
      ghost var before, fates := net.log, net.fates;
      ok, reply := net.Call(input, me);
      FirstMade(before, net.log, fates, net.fates, input, me);
      if ok { AnsweredPut(net.log, me, input, true); }
    }

    // The resends of a put: the error of the run that answered, except that ErrVersion now leaves
    // it open whether an earlier run applied the put.
    method ResendPut(input: Input, ghost me: nat) returns (r: Option<Err>)
      requires net.Valid() && me != 0 && input.Put? && OnlyRequest(net.log, me, input)
      modifies net, net.server
      ensures net.Valid() && old(net.log) <= net.log && OnlyRequest(net.log, me, input)
      ensures CallsMade(old(net.log), net.log, old(net.fates), net.fates, input, me)
      ensures r.Some? <==> Unanswered(old(net.fates)) < |old(net.fates)|
      ensures r.Some? ==>
        var err := net.log[|net.log| - 1].reply.err;
        r.value == if err == ErrVersion then ErrMaybe else err
      ensures TimesApplied(net.log, me) <= 1
      ensures r.Some? ==> PutMeans(net.log, me, r.value)
    {
      ghost var before, fates := net.log, net.fates;
      var resent := Resend(input, me);
      CallsAdded(before, net.log, fates, net.fates, input, me);
      ResentPut(net.log, me, input);
      if resent.None? {
        return None;
      }
      AnsweredPut(net.log, me, input, false);
      if resent.value.err == ErrVersion {
        return Some(ErrMaybe);
      }
      return Some(resent.value.err);
    }

    // The rest of a put with these fates, after an unanswered first call.
    method PutRest(input: Input, ghost me: nat, ghost before: seq<Exec>, ghost fates: seq<Fate>) returns (r: Option<Err>)
      requires net.Valid() && me != 0 && input.Put? && OnlyRequest(net.log, me, input)
      requires |fates| > 0 && Trying(before, net.log, fates, net.fates, 1, input, me)
      modifies net, net.server
      ensures net.Valid() && CallsMade(before, net.log, fates, net.fates, input, me)
      ensures r.Some? <==> Unanswered(fates) < |fates|
      ensures r.Some? ==>
        var err := net.log[|net.log| - 1].reply.err;
        r.value == if err == ErrVersion then ErrMaybe else err
      ensures TimesApplied(net.log, me) <= 1
      ensures r.Some? ==> PutMeans(net.log, me, r.value)
    {
      ghost var mid := net.log;
      r := ResendPut(input, me);
      FirstThenRest(before, mid, net.log, fates, net.fates, input, me);
    }

    // The calls of a put: the error of the run that answered, as it is when that was the first
    // call of all, and with ErrMaybe for ErrVersion after resends.
    method PutCalls(input: Input, ghost me: nat) returns (r: Option<Err>)
      requires net.Valid() && me != 0 && input.Put?
      requires forall i :: 0 <= i < |net.log| ==> net.log[i].op != me
      modifies net, net.server
      ensures net.Valid() && CallsMade(old(net.log), net.log, old(net.fates), net.fates, input, me)
      ensures r.Some? <==> Unanswered(old(net.fates)) < |old(net.fates)|
      ensures r.Some? ==>
        var err := net.log[|net.log| - 1].reply.err;
        r.value == if err == ErrVersion && !old(net.fates)[0].loss.Delivered? then ErrMaybe else err
      ensures TimesApplied(net.log, me) <= 1
      ensures r.Some? ==> PutMeans(net.log, me, r.value)
      ensures old(|net.fates| > 0 && net.fates[0].loss.Delivered?) ==> r.Some? && r != Some(ErrMaybe)
    {
      if |net.fates| == 0 {
        NoRunsNotApplied(net.log, me);
        NoCalls(net.log, net.fates, input, me);
        return None;
      }
      ghost var before, fates := net.log, net.fates;
      var ok, reply := FirstCall(input, me);
      if ok {
        return Some(reply.err);
      }
      r := PutRest(input, me, before, fates);
    }

    // OK: applied exactly once, by the run that answered. ErrVersion, ErrNoKey: never applied.
    // ErrMaybe, or still retrying: at most once, and not at all if every request was lost.
    method Put(key: string, value: Value, version: nat, ghost me: nat) returns (r: Option<Err>)
      requires net.Valid() && me != 0
      requires forall i :: 0 <= i < |net.log| ==> net.log[i].op != me
      modifies net, net.server
      ensures net.Valid() && OnlyRuns(old(net.log), net.log, me)
      ensures OnlyRequest(net.log, me, Input.Put(key, value, version))
      ensures if r.None? then net.fates == [] else |net.fates| < old(|net.fates|)
      ensures CallsMade(old(net.log), net.log, old(net.fates), net.fates, Input.Put(key, value, version), me)
      ensures r.Some? <==> Unanswered(old(net.fates)) < |old(net.fates)|
      ensures r.Some? ==>
        var err := net.log[|net.log| - 1].reply.err;
        r.value == if err == ErrVersion && !old(net.fates)[0].loss.Delivered? then ErrMaybe else err
      ensures TimesApplied(net.log, me) <= 1
      ensures (forall i :: 0 <= i < |old(net.fates)| ==> old(net.fates)[i].loss.RequestLost?) ==>
        TimesApplied(net.log, me) == 0
      ensures r.Some? ==> PutMeans(net.log, me, r.value)
      ensures old(|net.fates| > 0 && net.fates[0].loss.Delivered?) ==> r.Some? && r != Some(ErrMaybe)
    {
      ghost var before, fates := net.log, net.fates;
      r := PutCalls(Input.Put(key, value, version), me);
      PutEnds(before, net.log, fates, net.fates, Input.Put(key, value, version), me);
    }
  }

  lemma {:induction false} NoCalls(log: seq<Exec>, fates: seq<Fate>, input: Input, me: nat)
    requires fates == []
    ensures Unanswered(fates) == 0 && CallsMade(log, log, fates, [], input, me)
  {
  }

  // The runs of one call more.
  lemma {:induction false} OneCallMore(fates: seq<Fate>, n: nat, input: Input, me: nat)
    requires n < |fates|
    ensures RunsOf(fates[..n + 1], input, me) == RunsOf(fates[..n], input, me) + Others(fates[n].others)
      + (if fates[n].loss.RequestLost? then [] else [Request(me, input)])
  {
    assert fates[..n + 1][..n] == fates[..n];
  }

  lemma OwnRunIsLast(before: seq<Exec>, log: seq<Exec>, fate: Fate, input: Input, me: nat)
    requires before <= log && me != 0 && !fate.loss.RequestLost?
    requires Sent(log) == Sent(before) + Others(fate.others) + [Request(me, input)]
    requires forall i :: 0 <= i < |before| ==> before[i].op != me
    ensures forall i :: 0 <= i < |log| - 1 ==> log[i].op != me
  {
    forall i | 0 <= i < |log| - 1 ensures log[i].op != me {
      if i < |before| {
        assert log[i] == before[i];
      } else {
        assert Sent(log)[i] == Others(fate.others)[i - |before|];
      }
    }
  }

  // The first call of a request that had not run before.
  lemma {:induction false} FirstMade(before: seq<Exec>, log: seq<Exec>, fates: seq<Fate>, left: seq<Fate>, input: Input, me: nat)
    requires |fates| > 0 && me != 0 && forall i :: 0 <= i < |before| ==> before[i].op != me
    requires before <= log && left == fates[1..]
    requires Sent(log) == Sent(before) + Others(fates[0].others)
                          + (if fates[0].loss.RequestLost? then [] else [Request(me, input)])
    requires fates[0].loss.Delivered? ==> |log| > 0 && log[|log| - 1].op == me && log[|log| - 1].input == input
    ensures OnlyRequest(log, me, input)
    ensures if fates[0].loss.Delivered? then
        CallsMade(before, log, fates, left, input, me) && Unanswered(fates) == 0
        && forall i :: 0 <= i < |log| - 1 ==> log[i].op != me
      else Trying(before, log, fates, left, 1, input, me)
  {
    assert fates[0..] == fates;
    TryMore(before, before, log, fates, left, 0, input, me);
    OneCallMore(fates, 0, input, me);
    RunsAdded(before, log, fates[..1], input, me);
    if fates[0].loss.Delivered? { OwnRunIsLast(before, log, fates[0], input, me); }
  }

  lemma {:induction false} AllLostNotApplied(before: seq<Exec>, log: seq<Exec>, fates: seq<Fate>, left: seq<Fate>, input: Input, me: nat)
    requires me != 0 && forall i :: 0 <= i < |before| ==> before[i].op != me
    requires CallsMade(before, log, fates, left, input, me)
    ensures (forall i :: 0 <= i < |fates| ==> fates[i].loss.RequestLost?) ==> TimesApplied(log, me) == 0
  {
    if forall i :: 0 <= i < |fates| ==> fates[i].loss.RequestLost? {
      LostRunsNothing(fates, input, me);
      forall i | 0 <= i < |log| ensures log[i].op != me {
        if i < |before| {
          assert log[i] == before[i];
        } else {
          assert Sent(log)[i] == RunsOf(fates, input, me)[i - |before|];
        }
      }
      NoRunsNotApplied(log, me);
    }
  }

  lemma {:induction false} PutEnds(before: seq<Exec>, log: seq<Exec>, fates: seq<Fate>, left: seq<Fate>, input: Input, me: nat)
    requires me != 0 && forall i :: 0 <= i < |before| ==> before[i].op != me
    requires CallsMade(before, log, fates, left, input, me)
    ensures OnlyRuns(before, log, me) && OnlyRequest(log, me, input)
    ensures if Unanswered(fates) == |fates| then left == [] else |left| < |fates|
    ensures (forall i :: 0 <= i < |fates| ==> fates[i].loss.RequestLost?) ==> TimesApplied(log, me) == 0
  {
    CallsAdded(before, log, fates, left, input, me);
    AllLostNotApplied(before, log, fates, left, input, me);
  }
}
