// The worker's two task bodies, over a file store kept as maps: temporary files of pairs, and
// one output file for each reduce task.

module MrWorker {
  import opened Collections
  import opened Grouping
  import opened MrSpec
  import opened MrTasks

  // A reduce task as a worker receives it.
  datatype ReduceJob = ReduceJob(id: nat, filenames: seq<nat>)

  function BucketOf(app: App, nReduce: nat, key: string): nat
    requires nReduce > 0
  {
    app.hash(key) % nReduce
  }

  function ByBucket(app: App, nReduce: nat): KeyValue -> nat
    requires nReduce > 0
  {
    (kv: KeyValue) => BucketOf(app, nReduce, kv.key)
  }

  // The files of a report hold the pairs kva, split by bucket.
  ghost predicate Holds(report: Report, kva: seq<KeyValue>, bucket: KeyValue -> nat, temp: map<nat, seq<KeyValue>>) {
    && report.files.Keys == Keys(kva, bucket)
    && forall b :: b in report.files ==>
         report.files[b] in temp && temp[report.files[b]] == Members(kva, bucket, b)
  }

  // The report of some execution of a map task on this content.
  ghost predicate GoodReport(report: Report, content: string, app: App, nReduce: nat, temp: map<nat, seq<KeyValue>>)
    requires nReduce > 0
  {
    exists kva :: multiset(kva) == app.emits(report.task, content) && Holds(report, kva, ByBucket(app, nReduce), temp)
  }

  // A file has pairs of its own bucket only, the remainder of the hash.
  lemma FileOfBucket(report: Report, kva: seq<KeyValue>, app: App, nReduce: nat, temp: map<nat, seq<KeyValue>>, b: nat)
    requires nReduce > 0 && Holds(report, kva, ByBucket(app, nReduce), temp) && b in report.files
    ensures b < nReduce && forall kv :: kv in temp[report.files[b]] ==> app.hash(kv.key) % nReduce == b
  {
    var bucket := ByBucket(app, nReduce);
    assert b in Keys(kva, bucket);
    var i :| 0 <= i < |kva| && bucket(kva[i]) == b;
    forall kv | kv in temp[report.files[b]] ensures app.hash(kv.key) % nReduce == b {
      MembersCount(kva, bucket, b, kv);
      assert kv in multiset(Members(kva, bucket, b));
    }
  }

  // A pair is in its bucket's file as often as it was emitted.
  lemma PairInFile(report: Report, kva: seq<KeyValue>, app: App, nReduce: nat, temp: map<nat, seq<KeyValue>>, kv: KeyValue)
    requires nReduce > 0 && Holds(report, kva, ByBucket(app, nReduce), temp) && kv in multiset(kva)
    ensures var b := app.hash(kv.key) % nReduce;
      b in report.files && multiset(temp[report.files[b]])[kv] == multiset(kva)[kv]
  {
    var bucket := ByBucket(app, nReduce);
    var i :| 0 <= i < |kva| && kva[i] == kv;
    assert bucket(kva[i]) in Keys(kva, bucket);
    MembersCount(kva, bucket, bucket(kv), kv);
  }

  // The files of a report hold the emitted pairs, split by the remainder of the hash.
  ghost predicate SplitByHash(files: map<nat, nat>, kvs: multiset<KeyValue>, app: App, nReduce: nat,
                              temp: map<nat, seq<KeyValue>>)
    requires nReduce > 0
  {
    && (forall b :: b in files ==>
          b < nReduce && files[b] in temp && forall kv :: kv in temp[files[b]] ==> app.hash(kv.key) % nReduce == b)
    && forall kv :: kv in kvs ==>
         app.hash(kv.key) % nReduce in files
         && files[app.hash(kv.key) % nReduce] in temp
         && multiset(temp[files[app.hash(kv.key) % nReduce]])[kv] == kvs[kv]
  }

  lemma HoldsSplit(report: Report, kva: seq<KeyValue>, app: App, nReduce: nat, temp: map<nat, seq<KeyValue>>)
    requires nReduce > 0 && Holds(report, kva, ByBucket(app, nReduce), temp)
    ensures SplitByHash(report.files, multiset(kva), app, nReduce, temp)
  {
    forall b | b in report.files
      ensures b < nReduce && forall kv :: kv in temp[report.files[b]] ==> app.hash(kv.key) % nReduce == b
    {
      FileOfBucket(report, kva, app, nReduce, temp, b);
    }
    forall kv | kv in multiset(kva)
      ensures app.hash(kv.key) % nReduce in report.files
      ensures multiset(temp[report.files[app.hash(kv.key) % nReduce]])[kv] == multiset(kva)[kv]
    {
      PairInFile(report, kva, app, nReduce, temp, kv);
    }
  }

  // The file store only gained files.
  ghost predicate Grows(before: map<nat, seq<KeyValue>>, after: map<nat, seq<KeyValue>>) {
    forall f :: f in before ==> f in after && after[f] == before[f]
  }

  // Every bucket's file is a new one.
  ghost predicate FreshFiles(files: map<nat, nat>, before: map<nat, seq<KeyValue>>) {
    && (forall b :: b in files ==> files[b] !in before)
    && (forall b, c :: b in files && c in files && b != c ==> files[b] != files[c])
  }

  // All the pairs of a list of files; a file that cannot be read counts as empty.
  function ReadAll(temp: map<nat, seq<KeyValue>>, names: seq<nat>): seq<KeyValue> {
    if names == [] then []
    else ReadAll(temp, names[..|names| - 1]) + (if names[|names| - 1] in temp then temp[names[|names| - 1]] else [])
  }

  class FileStore {
    var temp: map<nat, seq<KeyValue>>
    var outs: map<nat, seq<Line>>
    // The next temporary name; no file has this name or a larger one.
    var next: nat

    ghost predicate Valid()
      reads this
    {
      forall f :: f in temp ==> f < next
    }

    constructor ()
      ensures Valid() && temp == map[] && outs == map[]
    {
      temp, outs, next := map[], map[], 0;
    }

    method WriteKeyValues(kvs: seq<KeyValue>) returns (name: nat)
      requires Valid()
      modifies this
      ensures Valid() && name !in old(temp) && temp == old(temp)[name := kvs] && outs == old(outs)
    {
      name := next;
      temp := temp[name := kvs];
      next := next + 1;
    }

    // None when the input file cannot be read; then nothing is written or reported.
    method MapTask(task: string, inputs: map<string, string>, app: App, nReduce: nat) returns (report: Option<Report>)
      requires Valid() && nReduce > 0
      modifies this
      ensures Valid() && Grows(old(temp), temp) && outs == old(outs)
      ensures report.Some? <==> task in inputs
      ensures report.Some? ==> report.value.task == task && GoodReport(report.value, inputs[task], app, nReduce, temp)
      ensures report.Some? ==> FreshFiles(report.value.files, old(temp))
      ensures report.Some? ==> SplitByHash(report.value.files, app.emits(task, inputs[task]), app, nReduce, temp)
      ensures report.Some? ==> forall b :: b in report.value.files ==>
        b < nReduce && forall kv :: kv in temp[report.value.files[b]] ==> app.hash(kv.key) % nReduce == b
      ensures report.None? ==> temp == old(temp)
    {
      if task !in inputs {
        return None;
      }
      var kva := MapF(app, task, inputs[task]);
      var taskMap := GroupBy(kva, ByBucket(app, nReduce));
      var files: map<nat, nat> := map[];
      var rest := taskMap.Keys;
      while rest != {}
        invariant Valid() && rest <= taskMap.Keys
        invariant Grows(old(temp), temp) && outs == old(outs)
        invariant files.Keys == taskMap.Keys - rest
        invariant forall b :: b in files ==> files[b] in temp && temp[files[b]] == taskMap[b]
        invariant FreshFiles(files, old(temp))
        decreases rest
      {
        ghost var m := Member(rest);
        assert m in rest;
        var b :| b in rest;
        var name := WriteKeyValues(taskMap[b]);
        files := files[b := name];
        rest := rest - {b};
      }
      report := Some(Report(task, files));
      assert Holds(report.value, kva, ByBucket(app, nReduce), temp);
      HoldsSplit(report.value, kva, app, nReduce, temp);
    }

    method ReadFiles(names: seq<nat>) returns (allKVs: seq<KeyValue>)
      ensures allKVs == ReadAll(temp, names)
    {
      allKVs := [];
      for i := 0 to |names|
        invariant allKVs == ReadAll(temp, names[..i])
      {
        assert names[..i + 1][..i] == names[..i];
        if names[i] in temp {
          allKVs := allKVs + temp[names[i]];
        }
      }
      assert names[..|names|] == names;
    }

    // The output file is replaced by the right output for the pairs of the job's files.
    method ReduceTask(job: ReduceJob, app: App)
      modifies `outs
      ensures job.id in outs && outs == old(outs)[job.id := outs[job.id]]
      ensures IsOutput(outs[job.id], multiset(ReadAll(temp, job.filenames)), app)
    {
      var allKVs := ReadFiles(job.filenames);
      var lines := ReduceAll(allKVs, app);
      outs := outs[job.id := lines];
    }
  }

  // Groups the pairs by key and reduces each group, the groups being taken in any order.
  method ReduceAll(kvs: seq<KeyValue>, app: App) returns (lines: seq<Line>)
    ensures IsOutput(lines, multiset(kvs), app)
  {
    var taskMap := GroupBy(kvs, MrSpec.KeyOf);
    lines := [];
    var rest := taskMap.Keys;
    while rest != {}
      invariant rest <= taskMap.Keys
      invariant DistinctKeys(lines)
      invariant forall l :: 0 <= l < |lines| ==> lines[l].key !in rest && GoodLine(lines[l], multiset(kvs), app)
      invariant forall k :: k in taskMap && k !in rest ==> HasKey(lines, k)
      decreases rest
    {
      var key :| key in rest;
      var line := Line(key, app.reducef(key, Values(taskMap[key])));
      GroupLine(kvs, app, line);
      HasKeyGrows(lines, line);
      lines := lines + [line];
      rest := rest - {key};
    }
    forall kv | kv in multiset(kvs) ensures HasKey(lines, kv.key) {
      var i :| 0 <= i < |kvs| && kvs[i] == kv;
      assert MrSpec.KeyOf(kvs[i]) in Keys(kvs, MrSpec.KeyOf);
    }
  }

  lemma HasKeyGrows(lines: seq<Line>, line: Line)
    ensures forall k :: HasKey(lines, k) ==> HasKey(lines + [line], k)
    ensures HasKey(lines + [line], line.key)
  {
    var more := lines + [line];
    assert more[|lines|].key == line.key;
    forall k | HasKey(lines, k) ensures HasKey(more, k) {
      var i :| 0 <= i < |lines| && lines[i].key == k;
      assert more[i].key == k;
    }
  }

  lemma {:induction false} GroupLine(kvs: seq<KeyValue>, app: App, line: Line)
    requires line.key in Keys(kvs, MrSpec.KeyOf)
    requires line == Line(line.key, app.reducef(line.key, Values(Members(kvs, MrSpec.KeyOf, line.key))))
    ensures GoodLine(line, multiset(kvs), app)
  {
    var ms := Members(kvs, MrSpec.KeyOf, line.key);
    MembersAreValues(kvs, line.key);
    var i :| 0 <= i < |kvs| && MrSpec.KeyOf(kvs[i]) == line.key;
    MembersCount(kvs, MrSpec.KeyOf, line.key, kvs[i]);
    assert kvs[i] in multiset(ms);
  }
}
