// When an input file is named twice. The sequential program maps it twice; the coordinator keeps
// one map task for each name, so the distributed run takes it once. The two programs write the
// same lines whatever the application exactly when no name is repeated.

module MrDuplicates {
  import opened Collections
  import opened MrSpec
  import opened MrTasks
  import opened MrSystem
  import MrProgress
  import MrRefinement
  import MrSchedule

  // Between them, the output files hold the lines q.
  ghost predicate Wrote(s: State, nReduce: nat, q: seq<Line>) {
    s.outs.Keys == Below(nReduce) && multiset(MrRefinement.Concat(s.outs, nReduce)) == multiset(q)
  }

  // For every order-blind application, every finished distributed run over these files writes
  // what the sequential program writes over them.
  ghost predicate ProgramsAgree(files: seq<string>, contents: map<string, string>, nReduce: nat)
    requires forall f :: f in files ==> f in contents
  {
    forall app: App, states: seq<State>, events: seq<Event>, q: seq<Line> |
      && OrderBlind(app) && Run(Setup(files, contents, app, nReduce), states, events)
      && states[|events|].coord.Done() && IsOutput(q, Emitted(files, contents, app), app) ::
      Wrote(states[|events|], nReduce, q)
  }

  function Ones(n: nat): (s: string)
    ensures |s| == n
  {
    seq(n, i => '1')
  }

  // Counts the map calls: one pair for each, all with the same key.
  function CountCalls(): App {
    App((file, content) => multiset{KeyValue("calls", "1")}, (key, vs) => Ones(|vs|), key => 0)
  }

  lemma CountCallsBlind()
    ensures OrderBlind(CountCalls())
  {
    forall k: string, vs: seq<string>, ws: seq<string> | multiset(vs) == multiset(ws)
      ensures CountCalls().reducef(k, vs) == CountCalls().reducef(k, ws)
    {
      assert |vs| == |multiset(vs)| == |multiset(ws)| == |ws|;
    }
  }

  lemma {:induction false} CallsCounted(files: seq<string>, contents: map<string, string>, kv: KeyValue)
    requires forall f :: f in files ==> f in contents
    ensures Emitted(files, contents, CountCalls())[kv] == if kv == KeyValue("calls", "1") then |files| else 0
  {
    if files != [] { CallsCounted(files[..|files| - 1], contents, kv); }
  }

  lemma {:induction false} ManyOnes(n: nat, v: string)
    ensures multiset(seq(n, i => "1"))[v] == if v == "1" then n else 0
  {
    if n > 0 {
      ManyOnes(n - 1, v);
      assert seq(n, i => "1") == seq(n - 1, i => "1") + ["1"];
    }
  }

  lemma {:induction false} CountOutput(files: seq<string>, contents: map<string, string>)
    requires files != [] && forall f :: f in files ==> f in contents
    ensures IsOutput([Line("calls", Ones(|files|))], Emitted(files, contents, CountCalls()), CountCalls())
  {
    var lines := [Line("calls", Ones(|files|))];
    var kvs := Emitted(files, contents, CountCalls());
    var vs := seq(|files|, i => "1");
    forall v ensures multiset(vs)[v] == kvs[KeyValue("calls", v)] {
      ManyOnes(|files|, v);
      CallsCounted(files, contents, KeyValue("calls", v));
    }
    assert vs != [] && AreValues(vs, kvs, "calls");
    assert GoodLine(lines[0], kvs, CountCalls());
    forall kv | kv in kvs ensures HasKey(lines, kv.key) {
      CallsCounted(files, contents, kv);
      assert lines[0].key == kv.key;
    }
  }

  lemma {:induction false} RepeatCounts(s: seq<string>, i: nat, j: nat)
    requires i < j < |s| && s[i] == s[j]
    ensures multiset(s)[s[i]] >= 2
  {
    assert s == s[..i] + ([s[i]] + (s[i + 1..j] + ([s[j]] + s[j + 1..])));
  }

  lemma SameSizeDistinct(once: seq<string>, files: seq<string>)
    requires Distinct(once) && (forall f :: f in once <==> f in files) && |once| == |files|
    ensures Distinct(files)
  {
    var a, b := multiset(once), multiset(files);
    forall f ensures a[f] <= b[f] {
      DistinctCount(once, f);
      assert f in once ==> f in b;
    }
    assert b == a + (b - a);
    forall i, j | 0 <= i < j < |files| ensures files[i] != files[j] {
      if files[i] == files[j] { RepeatCounts(files, i, j); }
      DistinctCount(once, files[i]);
      assert (b - a)[files[i]] == 0;
    }
  }

  // Some run over these files reaches Done.
  lemma SomeRun(j: Setup) returns (states: seq<State>, events: seq<Event>)
    requires j.nReduce > 0 && forall f :: f in j.files ==> f in j.contents
    ensures Run(j, states, events) && states[|events|].coord.Done()
  {
    var s := State(0, InitCoord(FileSet(j), j.nReduce), map[], map[], {}, {}, {}, {}, {}, [], []);
    states, events := MrProgress.Finish(j, [s], [], s);
  }

  // A finished run of the counting application counts each name once.
  lemma RunCountsOnce(j: Setup, states: seq<State>, events: seq<Event>, once: seq<string>)
    requires Run(j, states, events) && states[|events|].coord.Done() && j.app == CountCalls()
    requires once != [] && Distinct(once) && forall f :: f in once <==> f in j.files
    ensures Wrote(states[|events|], j.nReduce, [Line("calls", Ones(|once|))])
  {
    MrRefinement.DoneIsRight(j, states, events, |events|, once);
    CountCallsBlind();
    CountOutput(once, j.contents);
    OutputUnique(MrRefinement.Concat(states[|events|].outs, j.nReduce), [Line("calls", Ones(|once|))],
                 Emitted(once, j.contents, j.app), j.app);
  }

  // With a repeated name, a finished run of the counting application writes another count than
  // the sequential program.
  lemma RepeatDisagrees(files: seq<string>, contents: map<string, string>, nReduce: nat)
    requires nReduce > 0 && (forall f :: f in files ==> f in contents) && !Distinct(files)
    ensures !ProgramsAgree(files, contents, nReduce)
  {
    var j := Setup(files, contents, CountCalls(), nReduce);
    var once := MrSchedule.Listing(FileSet(j));
    assert files[0] in once;
    var states, events := SomeRun(j);
    RunCountsOnce(j, states, events, once);
    CountCallsBlind();
    CountOutput(files, contents);
    var d, q := [Line("calls", Ones(|once|))], [Line("calls", Ones(|files|))];
    if ProgramsAgree(files, contents, nReduce) {
      assert Wrote(states[|events|], nReduce, q);
      assert multiset(d) == multiset(q);
      assert d[0] in multiset(q);
      SameSizeDistinct(once, files);
    }
  }

  // Whatever the number of buckets: distributed and sequential program write the same lines for
  // every order-blind application and in every finished run if and only if no name is repeated.
  lemma AgreeIffDistinct(files: seq<string>, contents: map<string, string>, nReduce: nat)
    requires nReduce > 0 && forall f :: f in files ==> f in contents
    ensures ProgramsAgree(files, contents, nReduce) <==> Distinct(files)
  {
    if Distinct(files) {
      forall app: App, states: seq<State>, events: seq<Event>, q: seq<Line> |
        && OrderBlind(app) && Run(Setup(files, contents, app, nReduce), states, events)
        && states[|events|].coord.Done() && IsOutput(q, Emitted(files, contents, app), app)
        ensures Wrote(states[|events|], nReduce, q)
      {
        MrRefinement.RunMatchesSequential(Setup(files, contents, app, nReduce), states, events, |events|, q);
      }
    } else {
      RepeatDisagrees(files, contents, nReduce);
    }
  }
}
