// The output files of a finished distributed run hold, between them, the lines the sequential
// program writes, when no input file is named twice.

module MrRefinement {
  import opened Collections
  import opened Grouping
  import opened MrSpec
  import opened MrTasks
  import opened MrWorker
  import opened MrSystem

  ghost function Tasks(commits: seq<Report>): seq<string> {
    seq(|commits|, i requires 0 <= i < |commits| => commits[i].task)
  }

  // The lines of mr-out-0, ..., mr-out-(n - 1), one file after another.
  ghost function Concat(outs: map<nat, seq<Line>>, n: nat): seq<Line>
    requires forall r :: r in Below(n) ==> r in outs
  {
    if n == 0 then [] else Concat(outs, n - 1) + outs[n - 1]
  }

  // ----- The order of the input files does not matter -----

  lemma {:induction false} EmittedRemove(files: seq<string>, i: nat, contents: map<string, string>, app: App)
    requires i < |files| && forall f :: f in files ==> f in contents
    ensures Emitted(files, contents, app)
      == Emitted(files[..i] + files[i + 1..], contents, app) + app.emits(files[i], contents[files[i]])
  {
    var n := |files| - 1;
    var others := files[..i] + files[i + 1..];
    if i < n {
      EmittedRemove(files[..n], i, contents, app);
      assert others[..n - 1] == files[..n][..i] + files[..n][i + 1..];
      assert others[n - 1] == files[n];
    } else {
      assert others == files[..n];
    }
  }

  lemma WithoutOne(a: seq<string>, b: seq<string>, i: nat)
    requires multiset(a) == multiset(b) && i < |b| && a != [] && b[i] == a[|a| - 1]
    ensures multiset(a[..|a| - 1]) == multiset(b[..i] + b[i + 1..])
  {
    var x := b[i];
    assert a == a[..|a| - 1] + [x];
    assert b == b[..i] + ([x] + b[i + 1..]);
    assert multiset(a[..|a| - 1]) == multiset(a) - multiset{x};
  }

  lemma {:induction false} EmittedPermutes(a: seq<string>, b: seq<string>, contents: map<string, string>, app: App)
    requires multiset(a) == multiset(b)
    requires (forall f :: f in a ==> f in contents) && (forall f :: f in b ==> f in contents)
    ensures Emitted(a, contents, app) == Emitted(b, contents, app)
  {
    if a == [] {
      assert |multiset(b)| == 0;
    } else {
      var x := a[|a| - 1];
      assert x in multiset(b);
      var i :| 0 <= i < |b| && b[i] == x;
      WithoutOne(a, b, i);
      EmittedPermutes(a[..|a| - 1], b[..i] + b[i + 1..], contents, app);
      EmittedRemove(b, i, contents, app);
    }
  }

  // ----- What is in one bucket -----

  lemma TasksKnown(j: Setup, s: State, commits: seq<Report>)
    requires j.nReduce > 0 && forall i :: 0 <= i < |commits| ==> Reported(j, s, commits[i])
    ensures forall f :: f in Tasks(commits) ==> f in j.contents
  {
    forall f | f in Tasks(commits) ensures f in j.contents {
      var i :| 0 <= i < |commits| && Tasks(commits)[i] == f;
      assert Reported(j, s, commits[i]);
    }
  }

  // The accepted reports' files for bucket r hold exactly the pairs of bucket r.
  lemma {:induction false} BucketHolds(j: Setup, s: State, commits: seq<Report>, r: nat, kv: KeyValue)
    requires j.nReduce > 0 && forall i :: 0 <= i < |commits| ==> Reported(j, s, commits[i])
    requires forall f :: f in Tasks(commits) ==> f in j.contents
    ensures multiset(ReadAll(s.temp, FilesOf(commits, r)))[kv]
      == if j.app.hash(kv.key) % j.nReduce == r then Emitted(Tasks(commits), j.contents, j.app)[kv] else 0
  {
    if commits != [] {
      var n := |commits| - 1;
      var c := commits[n];
      assert Tasks(commits)[..n] == Tasks(commits[..n]);
      assert Tasks(commits)[n] == c.task;
      BucketHolds(j, s, commits[..n], r, kv);
      assert Reported(j, s, c);
      OneReport(c, j.contents[c.task], j.app, j.nReduce, s.temp, r, kv);
      ReadAllLast(s.temp, FilesOf(commits[..n], r), if r in c.files then [c.files[r]] else []);
    }
  }

  lemma {:induction false} ReadAllLast(temp: map<nat, seq<KeyValue>>, names: seq<nat>, last: seq<nat>)
    requires |last| <= 1 && forall f :: f in last ==> f in temp
    ensures ReadAll(temp, names + last) == ReadAll(temp, names) + (if last == [] then [] else temp[last[0]])
  {
    if last == [] {
      assert names + last == names;
    } else {
      assert (names + last)[..|names|] == names;
    }
  }

  lemma OneReport(c: Report, content: string, app: App, nReduce: nat, temp: map<nat, seq<KeyValue>>,
                  r: nat, kv: KeyValue)
    requires nReduce > 0 && GoodReport(c, content, app, nReduce, temp)
    ensures r in c.files ==> c.files[r] in temp
    ensures (if r in c.files then multiset(temp[c.files[r]])[kv] else 0)
      == if app.hash(kv.key) % nReduce == r then app.emits(c.task, content)[kv] else 0
  {
    var bucket := ByBucket(app, nReduce);
    var kva :| multiset(kva) == app.emits(c.task, content) && Holds(c, kva, bucket, temp);
    MembersCount(kva, bucket, r, kv);
    if r !in c.files { NoMembers(kva, bucket, r); }
  }

  // ----- Putting the buckets' outputs together -----

  // The right output for the pairs of buckets 0, ..., n - 1.
  ghost predicate IsPart(lines: seq<Line>, kvs: multiset<KeyValue>, app: App, nReduce: nat, n: nat)
    requires nReduce > 0
  {
    && DistinctKeys(lines)
    && (forall kv :: kv in kvs && app.hash(kv.key) % nReduce < n ==> HasKey(lines, kv.key))
    && (forall i :: 0 <= i < |lines| ==> GoodLine(lines[i], kvs, app) && app.hash(lines[i].key) % nReduce < n)
  }

  // part is the pairs of kvs whose key's hash leaves the remainder r.
  ghost predicate IsBucket(part: multiset<KeyValue>, kvs: multiset<KeyValue>, app: App, nReduce: nat, r: nat)
    requires nReduce > 0
  {
    forall kv :: part[kv] == if app.hash(kv.key) % nReduce == r then kvs[kv] else 0
  }

  // A line made from the pairs of its bucket is made from all the pairs of its key.
  lemma BucketLine(line: Line, part: multiset<KeyValue>, kvs: multiset<KeyValue>, app: App, nReduce: nat, r: nat)
    requires nReduce > 0 && IsBucket(part, kvs, app, nReduce, r) && GoodLine(line, part, app)
    ensures app.hash(line.key) % nReduce == r && GoodLine(line, kvs, app)
  {
    var vs :| vs != [] && AreValues(vs, part, line.key) && line.output == app.reducef(line.key, vs);
    assert vs[0] in multiset(vs);
    assert part[KeyValue(line.key, vs[0])] > 0;
    assert AreValues(vs, kvs, line.key);
  }

  lemma HasKeyAppend(a: seq<Line>, b: seq<Line>)
    ensures forall k :: HasKey(a, k) || HasKey(b, k) ==> HasKey(a + b, k)
  {
    forall k | HasKey(a, k) || HasKey(b, k) ensures HasKey(a + b, k) {
      if HasKey(a, k) {
        var i :| 0 <= i < |a| && a[i].key == k;
        assert (a + b)[i].key == k;
      } else {
        var i :| 0 <= i < |b| && b[i].key == k;
        assert (a + b)[|a| + i].key == k;
      }
    }
  }

  lemma AppendBucket(a: seq<Line>, b: seq<Line>, part: multiset<KeyValue>, kvs: multiset<KeyValue>,
                     app: App, nReduce: nat, r: nat)
    requires nReduce > 0 && IsPart(a, kvs, app, nReduce, r)
    requires IsBucket(part, kvs, app, nReduce, r) && IsOutput(b, part, app)
    ensures IsPart(a + b, kvs, app, nReduce, r + 1)
  {
    forall i | 0 <= i < |b| ensures app.hash(b[i].key) % nReduce == r && GoodLine(b[i], kvs, app) {
      BucketLine(b[i], part, kvs, app, nReduce, r);
    }
    HasKeyAppend(a, b);
    forall kv | kv in kvs && app.hash(kv.key) % nReduce < r + 1 ensures HasKey(a + b, kv.key) {
      assert app.hash(kv.key) % nReduce == r ==> kv in part;
    }
  }

  // Once all maps are completed, a reduce task's list holds exactly the pairs of its bucket.
  lemma ListIsBucket(j: Setup, s: State, r: nat)
    requires Inv(j, s) && r in s.coord.filenames
    ensures forall f :: f in Tasks(s.commits) ==> f in j.contents
    ensures IsBucket(multiset(ReadAll(s.temp, s.coord.filenames[r])), Emitted(Tasks(s.commits), j.contents, j.app),
                     j.app, j.nReduce, r)
  {
    CommitsReported(j, s);
    assert s.coord.filenames[r] == FilesOf(s.commits, r);
    TasksKnown(j, s, s.commits);
    var part := multiset(ReadAll(s.temp, FilesOf(s.commits, r)));
    forall kv
      ensures part[kv] ==
        if j.app.hash(kv.key) % j.nReduce == r then Emitted(Tasks(s.commits), j.contents, j.app)[kv] else 0
    {
      BucketHolds(j, s, s.commits, r, kv);
    }
  }

  lemma {:induction false} ConcatIsPart(j: Setup, s: State, n: nat)
    requires Inv(j, s) && n <= j.nReduce && forall r :: r in Below(n) ==> r in s.outs
    requires forall f :: f in Tasks(s.commits) ==> f in j.contents
    ensures IsPart(Concat(s.outs, n), Emitted(Tasks(s.commits), j.contents, j.app), j.app, j.nReduce, n)
  {
    if n > 0 {
      var r := n - 1;
      ConcatIsPart(j, s, r);
      assert OutRight(j, s, r);
      ListIsBucket(j, s, r);
      AppendBucket(Concat(s.outs, r), s.outs[r], multiset(ReadAll(s.temp, s.coord.filenames[r])),
                   Emitted(Tasks(s.commits), j.contents, j.app), j.app, j.nReduce, r);
    }
  }

  // In every state, each line of output file r is of a key whose hash leaves the remainder r.
  lemma OutputsByHash(j: Setup, states: seq<State>, events: seq<Event>, i: nat, r: nat, l: nat)
    requires Run(j, states, events) && i <= |events|
    requires r in states[i].outs && l < |states[i].outs[r]|
    ensures j.nReduce > 0 && j.app.hash(states[i].outs[r][l].key) % j.nReduce == r
  {
    var s := states[i];
    RunInv(j, states, events, i);
    assert OutRight(j, s, r);
    ListIsBucket(j, s, r);
    BucketLine(s.outs[r][l], multiset(ReadAll(s.temp, s.coord.filenames[r])),
               Emitted(Tasks(s.commits), j.contents, j.app), j.app, j.nReduce, r);
  }

  // Every input file is committed once all maps are completed.
  lemma CommittedFiles(j: Setup, s: State, order: seq<string>)
    requires Inv(j, s) && s.coord.maps.AllCompleted()
    requires Distinct(order) && forall f :: f in order <==> f in FileSet(j)
    ensures multiset(order) == multiset(Tasks(s.commits))
  {
    forall f ensures f in order <==> f in Tasks(s.commits) {
      if f in order {
        assert s.coord.maps.IsCompleted(f) && Committed(s, f);
        var i :| 0 <= i < |s.commits| && s.commits[i].task == f;
        assert Tasks(s.commits)[i] == f;
      }
      if f in Tasks(s.commits) {
        var i :| 0 <= i < |s.commits| && Tasks(s.commits)[i] == f;
        assert Reported(j, s, s.commits[i]);
      }
    }
    SameElements(order, Tasks(s.commits));
  }

  // At Done, the output files there are exactly those of the reduce tasks.
  lemma DoneOuts(j: Setup, s: State)
    requires Inv(j, s) && s.coord.Done()
    ensures s.outs.Keys == Below(j.nReduce)
  {
    forall r | r in Below(j.nReduce) ensures r in s.outs {
      assert s.coord.reduces.IsCompleted(r);
    }
    forall r | r in s.outs ensures r in Below(j.nReduce) {
      assert OutRight(j, s, r);
    }
  }

  lemma {:induction false} DoneState(j: Setup, s: State, order: seq<string>)
    requires Inv(j, s) && s.coord.Done()
    requires Distinct(order) && forall f :: f in order <==> f in FileSet(j)
    ensures forall f :: f in order ==> f in j.contents
    ensures s.outs.Keys == Below(j.nReduce)
    ensures IsOutput(Concat(s.outs, j.nReduce), Emitted(order, j.contents, j.app), j.app)
  {
    DoneOuts(j, s);
    CommitsReported(j, s);
    TasksKnown(j, s, s.commits);
    CommittedFiles(j, s, order);
    assert forall f :: f in order ==> f in multiset(Tasks(s.commits));
    ConcatIsPart(j, s, j.nReduce);
    EmittedPermutes(Tasks(s.commits), order, j.contents, j.app);
    PartIsOutput(Concat(s.outs, j.nReduce), Emitted(order, j.contents, j.app), j.app, j.nReduce);
  }

  // When the coordinator says Done, every input file was readable, every output file is there,
  // and together they are the right output for each input file taken once.
  lemma {:induction false} DoneIsRight(j: Setup, states: seq<State>, events: seq<Event>, i: nat, order: seq<string>)
    requires Run(j, states, events) && i <= |events| && states[i].coord.Done()
    requires Distinct(order) && forall f :: f in order <==> f in FileSet(j)
    ensures forall f :: f in order ==> f in j.contents
    ensures states[i].outs.Keys == Below(j.nReduce)
    ensures IsOutput(Concat(states[i].outs, j.nReduce), Emitted(order, j.contents, j.app), j.app)
  {
    RunInv(j, states, events, i);
    DoneState(j, states[i], order);
  }

  lemma PartIsOutput(lines: seq<Line>, kvs: multiset<KeyValue>, app: App, nReduce: nat)
    requires nReduce > 0 && IsPart(lines, kvs, app, nReduce, nReduce)
    ensures IsOutput(lines, kvs, app)
  {
  }

  // The distributed run refines the sequential program.
  lemma RunMatchesSequential(j: Setup, states: seq<State>, events: seq<Event>, i: nat, sequential: seq<Line>)
    requires Run(j, states, events) && i <= |events| && states[i].coord.Done()
    requires Distinct(j.files) && OrderBlind(j.app)
    requires forall f :: f in j.files ==> f in j.contents
    requires IsOutput(sequential, Emitted(j.files, j.contents, j.app), j.app)
    ensures states[i].outs.Keys == Below(j.nReduce)
    ensures multiset(Concat(states[i].outs, j.nReduce)) == multiset(sequential)
  {
    DoneIsRight(j, states, events, i, j.files);
    OutputUnique(Concat(states[i].outs, j.nReduce), sequential, Emitted(j.files, j.contents, j.app), j.app);
  }
}
