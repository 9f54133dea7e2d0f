// The server's execution log: one entry for each time a handler ran.

module KvLog {
  import opened KvTypes

  // The handler ran for operation op at time at.
  datatype Exec = Exec(op: nat, input: Input, reply: Reply, at: nat)

  // The server after the handlers of the log ran in order.
  ghost function Replay(log: seq<Exec>): (sv: Server)
    ensures sv.Valid()
  {
    if log == [] then EmptyServer else Replay(log[..|log| - 1]).Handle(log[|log| - 1].input).0
  }

  // The reply at position i is what the handler gave.
  ghost predicate Replied(log: seq<Exec>, i: nat)
    requires i < |log|
  {
    log[i].reply == Replay(log[..i]).Handle(log[i].input).1
  }

  // Every reply is what the handler gave, and time moves forward.
  ghost predicate WellLogged(log: seq<Exec>) {
    && (forall i :: 0 <= i < |log| ==> Replied(log, i))
    && (forall i, j :: 0 <= i < j < |log| ==> log[i].at < log[j].at)
  }

  predicate Applied(e: Exec) {
    e.input.Put? && e.reply.err == OK
  }

  lemma {:induction false} WellLoggedAppend(log: seq<Exec>, e: Exec)
    requires WellLogged(log) && e.reply == Replay(log).Handle(e.input).1
    requires forall i :: 0 <= i < |log| ==> log[i].at < e.at
    ensures WellLogged(log + [e]) && Replay(log + [e]) == Replay(log).Handle(e.input).0
  {
    var l := log + [e];
    assert l[..|log|] == log;
    forall i | 0 <= i < |l| ensures Replied(l, i) {
      if i < |log| {
        assert l[..i] == log[..i];
        assert Replied(log, i);
      }
    }
  }

  // Versions only grow, and a key never disappears.
  lemma {:induction false} VersionsGrow(log: seq<Exec>, i: nat, j: nat, key: string)
    requires i <= j <= |log|
    ensures Replay(log[..i]).Version(key) <= Replay(log[..j]).Version(key)
    ensures key in Replay(log[..i]).data ==> key in Replay(log[..j]).data
    decreases j
  {
    if i < j {
      VersionsGrow(log, i, j - 1, key);
      ReplayStep(log, j - 1);
    }
  }

  lemma ReplayStep(log: seq<Exec>, i: nat)
    requires i < |log|
    ensures Replay(log[..i + 1]) == Replay(log[..i]).Handle(log[i].input).0
  {
    assert log[..i + 1][..i] == log[..i];
  }

  // While a key's version does not change, neither does its value.
  lemma {:induction false} SameVersionSameValue(log: seq<Exec>, i: nat, j: nat, key: string)
    requires i <= j <= |log| && Replay(log[..i]).Version(key) == Replay(log[..j]).Version(key)
    ensures Replay(log[..i]).Value(key) == Replay(log[..j]).Value(key)
    ensures key in Replay(log[..i]).data <==> key in Replay(log[..j]).data
    decreases j
  {
    if i < j {
      VersionsGrow(log, i, j - 1, key);
      VersionsGrow(log, j - 1, j, key);
      SameVersionSameValue(log, i, j - 1, key);
      ReplayStep(log, j - 1);
    }
  }

  // For each key and version, at most one write is ever applied.
  lemma OneWritePerVersion(log: seq<Exec>, i: nat, j: nat)
    requires WellLogged(log) && i < |log| && j < |log|
    requires Applied(log[i]) && Applied(log[j])
    requires log[i].input.key == log[j].input.key && log[i].input.version == log[j].input.version
    ensures i == j
  {
    var key := log[i].input.key;
    assert Replied(log, i) && Replied(log, j);
    ReplayStep(log, i);
    ReplayStep(log, j);
    if i < j {
      VersionsGrow(log, i + 1, j, key);
    } else if j < i {
      VersionsGrow(log, j + 1, i, key);
    }
  }

  // Once a write has been applied, the same request can only be refused with ErrVersion.
  lemma AppliedThenRefused(log: seq<Exec>, i: nat, j: nat)
    requires WellLogged(log) && i < j <= |log| && Applied(log[i])
    ensures Replay(log[..j]).Handle(log[i].input).1.err == ErrVersion
  {
    assert Replied(log, i);
    ReplayStep(log, i);
    VersionsGrow(log, i + 1, j, log[i].input.key);
  }

  // The number of times operation o's write was applied.
  ghost function TimesApplied(log: seq<Exec>, o: nat): nat {
    if log == [] then 0
    else TimesApplied(log[..|log| - 1], o) + (if log[|log| - 1].op == o && Applied(log[|log| - 1]) then 1 else 0)
  }

  lemma {:induction false} TimesAppliedSome(log: seq<Exec>, o: nat)
    requires TimesApplied(log, o) > 0
    ensures exists i :: 0 <= i < |log| && log[i].op == o && Applied(log[i])
  {
    var n := |log| - 1;
    if TimesApplied(log[..n], o) > 0 {
      TimesAppliedSome(log[..n], o);
      var i :| 0 <= i < n && log[..n][i].op == o && Applied(log[..n][i]);
      assert log[i].op == o && Applied(log[i]);
    }
  }

  ghost predicate OnlyRequest(log: seq<Exec>, o: nat, input: Input) {
    forall i :: 0 <= i < |log| && log[i].op == o ==> log[i].input == input
  }

  lemma WellLoggedPrefix(log: seq<Exec>, n: nat)
    requires WellLogged(log) && n <= |log|
    ensures WellLogged(log[..n])
  {
    forall i | 0 <= i < n ensures Replied(log[..n], i) {
      assert log[..n][..i] == log[..i];
      assert Replied(log, i);
    }
  }

  // However often the same put is sent, it is applied at most once; when its last run answers
  // OK it was applied once, and when that answers ErrNoKey it never was.
  lemma {:induction false} ResentPut(log: seq<Exec>, o: nat, input: Input)
    requires WellLogged(log) && input.Put? && OnlyRequest(log, o, input)
    ensures TimesApplied(log, o) <= 1
    ensures |log| > 0 && log[|log| - 1].op == o ==>
      && (log[|log| - 1].reply.err == OK ==> TimesApplied(log, o) == 1)
      && (log[|log| - 1].reply.err == ErrNoKey ==> TimesApplied(log, o) == 0)
  {
    if log != [] {
      var n := |log| - 1;
      WellLoggedPrefix(log, n);
      ResentPut(log[..n], o, input);
      if log[n].op == o && TimesApplied(log[..n], o) > 0 {
        TimesAppliedSome(log[..n], o);
        var i :| 0 <= i < n && log[..n][i].op == o && Applied(log[..n][i]);
        AppliedThenRefused(log, i, n);
        assert Replied(log, n);
      }
    }
  }

  lemma {:induction false} NoRunsNotApplied(log: seq<Exec>, o: nat)
    requires forall i :: 0 <= i < |log| ==> log[i].op != o
    ensures TimesApplied(log, o) == 0
  {
    if log != [] { NoRunsNotApplied(log[..|log| - 1], o); }
  }
}
