// The lock as the program writes it: loops of Get then Put over the Clerk, changing nothing but
// the store. What several clients do with it together is in LockClients.

module Lock {
  import opened Collections
  import opened KvTypes
  import opened KvLog
  import opened KvClerk

  const Held := Text("held")
  const FreeValue := Text("free")

  // The last run of the log is an applied put of this value on this key, by an operation of the
  // client's with id me or later.
  ghost predicate JustPut(log: seq<Exec>, me: nat, name: string, value: Value) {
    && |log| > 0
    && var e := log[|log| - 1]; e.op >= me && Applied(e) && e.input.key == name && e.input.value == value
  }

  // The key is absent or has this value.
  ghost predicate AbsentOr(data: map<string, Value>, name: string, value: Value) {
    name !in data || data[name] == value
  }

  // Just before that put, the key was absent or had this value.
  ghost predicate PutOver(log: seq<Exec>, name: string, value: Value)
    requires |log| > 0
  {
    AbsentOr(Replay(log[..|log| - 1]).data, name, value)
  }

  // Operation ids below me are used up.
  ghost predicate Used(log: seq<Exec>, me: nat) {
    forall i :: 0 <= i < |log| ==> log[i].op < me
  }

  // A put that is OK at the version a get returned overwrites what that get returned.
  lemma OverwritesWhatItRead(read: seq<Exec>, log: seq<Exec>, me: nat, name: string, from: Value, to: Value, reply: Reply)
    requires WellLogged(log) && read <= log && Used(read, me) && |read| > 0
    requires reply == Replay(read[..|read| - 1]).Handle(Get(name)).1
    requires reply.err == ErrNoKey || reply.value == from
    requires PutMeans(log, me, OK) && OnlyRequest(log, me, Put(name, to, reply.version))
    ensures JustPut(log, me, name, to) && PutOver(log, name, from)
  {
    var n := |log| - 1;
    assert read[|read| - 1] == log[|read| - 1];
    assert log[..|read| - 1] == read[..|read| - 1];
    assert Replied(log, n);
    SameVersionSameValue(log, |read| - 1, n, name);
  }

  lemma UsedMore(before: seq<Exec>, log: seq<Exec>, me: nat)
    requires Used(before, me) && OnlyRuns(before, log, me) && me > 0
    ensures Used(log, me + 1)
  {
    forall i | 0 <= i < |log| ensures log[i].op < me + 1 {
      assert i < |before| ==> before[i] == log[i];
    }
  }

  // This client's new runs read the lock's key or put the value to on it, and nothing else.
  ghost predicate LockRuns(before: seq<Exec>, log: seq<Exec>, me: nat, name: string, to: Value) {
    && before <= log
    && forall i :: |before| <= i < |log| ==> log[i].op == 0 || (log[i].op >= me && IsLockRun(log[i].input, name, to))
  }

  predicate IsLockRun(input: Input, name: string, to: Value) {
    input.key == name && (input.Put? ==> input.value == to)
  }

  lemma LockRunsOf(before: seq<Exec>, log: seq<Exec>, me: nat, input: Input, name: string, to: Value)
    requires OnlyRuns(before, log, me) && OnlyRequest(log, me, input) && IsLockRun(input, name, to)
    ensures LockRuns(before, log, me, name, to)
  {
  }

  lemma LockRunsChain(before: seq<Exec>, mid: seq<Exec>, log: seq<Exec>, me: nat, me': nat, name: string, to: Value)
    requires LockRuns(before, mid, me, name, to) && LockRuns(mid, log, me', name, to) && me <= me'
    ensures LockRuns(before, log, me, name, to)
  {
    forall i | |before| <= i < |log|
      ensures log[i].op == 0 || (log[i].op >= me && IsLockRun(log[i].input, name, to))
    {
      assert i < |mid| ==> mid[i] == log[i];
    }
  }

  // The next two calls are answered and nobody comes in between.
  ghost predicate Undisturbed(fates: seq<Fate>) {
    |fates| >= 2 && fates[0] == Fate([], Delivered) && fates[1] == Fate([], Delivered)
  }

  // An undisturbed call is one run.
  lemma {:induction false} QuietCall(before: seq<Exec>, log: seq<Exec>, fates: seq<Fate>, left: seq<Fate>, input: Input, me: nat)
    requires WellLogged(log) && |fates| > 0 && fates[0] == Fate([], Delivered)
    requires CallsMade(before, log, fates, left, input, me)
    ensures left == fates[1..] && |log| == |before| + 1 && log[..|before|] == before
    ensures log[|before|].input == input && log[|before|].reply == Replay(before).Handle(input).1
    ensures Replay(log) == Replay(before).Handle(input).0
  {
    assert Unanswered(fates) == 0;
    assert fates[..0] == [] && fates[..1][..0] == [];
    OneCallMore(fates, 0, input, me);
    assert |Sent(log)| == |Sent(before)| + 1;
    assert Replied(log, |before|);
    ReplayStep(log, |before|);
    assert log[..|before| + 1] == log;
  }

  // An undisturbed read answers whether the key is absent or has the value, and with its version.
  lemma {:induction false} QuietRead(before: seq<Exec>, read: seq<Exec>, fates: seq<Fate>, left: seq<Fate>, name: string, me: nat, from: Value)
    requires WellLogged(read) && Undisturbed(fates) && CallsMade(before, read, fates, left, Get(name), me)
    ensures |left| > 0 && left[0] == Fate([], Delivered) && |read| == |before| + 1 && Replay(read) == Replay(before)
    ensures var reply := read[|read| - 1].reply;
      && reply.version == Replay(before).Version(name)
      && (reply.err == ErrNoKey || (reply.err == OK && reply.value == from) <==> AbsentOr(Replay(before).data, name, from))
  {
    QuietCall(before, read, fates, left, Get(name), me);
  }

  class Lock {
    const ck: Clerk
    const lockname: string

    constructor (ck: Clerk, lockname: string)
      ensures this.ck == ck && this.lockname == lockname
    {
      this.ck, this.lockname := ck, lockname;
    }

    // The put of a turn, at the version the turn has read.
    method PutAt(reply: Reply, from: Value, to: Value, ghost me: nat) returns (r: Option<bool>)
      requires ck.net.Valid() && me > 0 && Used(ck.net.log, me) && |ck.net.log| > 0
      requires reply == Replay(ck.net.log[..|ck.net.log| - 1]).Handle(Get(lockname)).1
      requires reply.err == ErrNoKey || reply.value == from
      modifies ck.net, ck.net.server
      ensures ck.net.Valid() && Used(ck.net.log, me + 1) && LockRuns(old(ck.net.log), ck.net.log, me, lockname, to)
      ensures if r.None? then ck.net.fates == [] else |ck.net.fates| < old(|ck.net.fates|)
      ensures r == Some(true) ==> JustPut(ck.net.log, me, lockname, to) && PutOver(ck.net.log, lockname, from)
      ensures |old(ck.net.fates)| > 0 && old(ck.net.fates)[0] == Fate([], Delivered) ==>
        (old(ck.net.server.State().Version(lockname)) == reply.version ==> r == Some(true))
    {
      ghost var read, fates, input := ck.net.log, ck.net.fates, Put(lockname, to, reply.version);
      var err := ck.Put(lockname, to, reply.version, me);
      UsedMore(read, ck.net.log, me);
      LockRunsOf(read, ck.net.log, me, input, lockname, to);
      if |fates| > 0 && fates[0] == Fate([], Delivered) {
        QuietCall(read, ck.net.log, fates, ck.net.fates, input, me);
      }
      if err.None? {
        return None;
      }
      if err.value == OK {
        OverwritesWhatItRead(read, ck.net.log, me, lockname, from, to, reply);
        return Some(true);
      }
      return Some(false);
    }

    // One turn of either loop: a get and, when the key is absent or has the value from, a put of
    // the value to at the version read. None when the script ran out. Undisturbed, it succeeds
    // exactly when the key is absent or has that value.
    method Turn(from: Value, to: Value, ghost me: nat) returns (r: Option<bool>)
      requires ck.net.Valid() && me > 0 && Used(ck.net.log, me)
      modifies ck.net, ck.net.server
      ensures ck.net.Valid() && Used(ck.net.log, me + 2) && LockRuns(old(ck.net.log), ck.net.log, me, lockname, to)
      ensures if r.None? then ck.net.fates == [] else |ck.net.fates| < old(|ck.net.fates|)
      ensures r == Some(true) ==> JustPut(ck.net.log, me, lockname, to) && PutOver(ck.net.log, lockname, from)
      ensures Undisturbed(old(ck.net.fates)) ==>
        r == Some(AbsentOr(old(ck.net.server.data), lockname, from))
    {
      ghost var before, fates := ck.net.log, ck.net.fates;
      var got := ck.Get(lockname, me);
      ghost var read := ck.net.log;
      UsedMore(before, read, me);
      LockRunsOf(before, read, me, Get(lockname), lockname, to);
      if Undisturbed(fates) { QuietRead(before, read, fates, ck.net.fates, lockname, me, from); }
      if got.None? {
        return None;
      }
      var reply := got.value;
      if reply.err == ErrNoKey || (reply.err == OK && reply.value == from) {
        r := PutAt(reply, from, to, me + 1);
        LockRunsChain(before, read, ck.net.log, me, me + 1, lockname, to);
      } else {
        r := Some(false);
      }
    }

    // When Acquire returns, its own put of the held value has just been applied, over a lock that
    // was free or had never been used.
    method Acquire(ghost me: nat) returns (acquired: bool)
      requires ck.net.Valid() && me > 0 && Used(ck.net.log, me)
      modifies ck.net, ck.net.server
      ensures ck.net.Valid() && LockRuns(old(ck.net.log), ck.net.log, me, lockname, Held)
      ensures !acquired ==> ck.net.fates == []
      ensures Undisturbed(old(ck.net.fates)) && AbsentOr(old(ck.net.server.data), lockname, FreeValue) ==> acquired
      ensures acquired ==> JustPut(ck.net.log, me, lockname, Held) && PutOver(ck.net.log, lockname, FreeValue)
      ensures acquired ==> ck.net.server.State().Value(lockname) == Held
    {
      ghost var before, id := ck.net.log, me;
      while true
        invariant ck.net.Valid() && id >= me && Used(ck.net.log, id)
        invariant LockRuns(before, ck.net.log, me, lockname, Held)
        invariant id == me ==> ck.net.fates == old(ck.net.fates) && ck.net.server.data == old(ck.net.server.data)
        invariant Undisturbed(old(ck.net.fates)) && AbsentOr(old(ck.net.server.data), lockname, FreeValue) ==> id == me
        decreases |ck.net.fates|
      {
        ghost var mid := ck.net.log;
        var r := Turn(FreeValue, Held, id);
        LockRunsChain(before, mid, ck.net.log, me, id, lockname, Held);
        if r.None? {
          return false;
        }
        if r.value {
          JustPutValue(ck.net.log, id, lockname, Held);
          return true;
        }
        id := id + 2;
      }
    }

    // When Release returns, its own put of the free value has just been applied, over a lock that
    // was held or had never been used.
    method Release(ghost me: nat) returns (released: bool)
      requires ck.net.Valid() && me > 0 && Used(ck.net.log, me)
      modifies ck.net, ck.net.server
      ensures ck.net.Valid() && LockRuns(old(ck.net.log), ck.net.log, me, lockname, FreeValue)
      ensures !released ==> ck.net.fates == []
      ensures Undisturbed(old(ck.net.fates)) && AbsentOr(old(ck.net.server.data), lockname, Held) ==> released
      ensures released ==> JustPut(ck.net.log, me, lockname, FreeValue) && PutOver(ck.net.log, lockname, Held)
      ensures released ==> ck.net.server.State().Value(lockname) == FreeValue
    {
      ghost var before, id := ck.net.log, me;
      while true
        invariant ck.net.Valid() && id >= me && Used(ck.net.log, id)
        invariant LockRuns(before, ck.net.log, me, lockname, FreeValue)
        invariant id == me ==> ck.net.fates == old(ck.net.fates) && ck.net.server.data == old(ck.net.server.data)
        invariant Undisturbed(old(ck.net.fates)) && AbsentOr(old(ck.net.server.data), lockname, Held) ==> id == me
        decreases |ck.net.fates|
      {
        ghost var mid := ck.net.log;
        var r := Turn(Held, FreeValue, id);
        LockRunsChain(before, mid, ck.net.log, me, id, lockname, FreeValue);
        if r.None? {
          return false;
        }
        if r.value {
          JustPutValue(ck.net.log, id, lockname, FreeValue);
          return true;
        }
        id := id + 2;
      }
    }
  }

  lemma {:induction false} JustPutValue(log: seq<Exec>, me: nat, name: string, value: Value)
    requires WellLogged(log) && JustPut(log, me, name, value)
    ensures Replay(log).Value(name) == value
  {
    assert Replied(log, |log| - 1);
  }
}
