// The job can always still be finished: from every reachable state, whatever was lost, repeated
// or abandoned on the way, the run can go on to Done, exactly when every input file is readable.

module MrProgress {
  import opened Collections
  import opened Grouping
  import opened MrSpec
  import opened MrTasks
  import opened MrWorker
  import opened MrSystem
  import opened MrSchedule
  import MrRefinement

  // ----- Every execution has some result -----

  lemma {:induction false} ListOf(kvs: multiset<KeyValue>) returns (kva: seq<KeyValue>)
    ensures multiset(kva) == kvs
    decreases |kvs|
  {
    if kvs == multiset{} {
      kva := [];
    } else {
      var kv :| kv in kvs;
      var rest := ListOf(kvs - multiset{kv});
      kva := rest + [kv];
    }
  }

  lemma {:induction false} NameAbove(names: set<nat>) returns (n: nat)
    ensures forall f :: f in names ==> f < n
    decreases |names|
  {
    if names == {} {
      n := 0;
    } else {
      var m := Member(names);
      var above := NameAbove(names - {m});
      assert forall f :: f in names ==> f == m || f in names - {m};
      n := if m < above then above else m + 1;
    }
  }

  // Files numbered from n, one for each bucket.
  lemma NumberedFiles(report: Report, kva: seq<KeyValue>, bucket: KeyValue -> nat, n: nat, temp: map<nat, seq<KeyValue>>)
    returns (temp': map<nat, seq<KeyValue>>)
    requires (forall f :: f in temp ==> f < n) && report.files == map b | b in Keys(kva, bucket) :: n + b
    ensures Grows(temp, temp') && Holds(report, kva, bucket, temp') && FreshFiles(report.files, temp)
  {
    var names := set b | b in Keys(kva, bucket) :: n + b;
    temp' := temp + map f | f in names :: Members<KeyValue, nat>(kva, bucket, f - n);
    forall b | b in report.files
      ensures report.files[b] in temp' && temp'[report.files[b]] == Members(kva, bucket, b)
    {
      assert n + b in names;
    }
  }

  // A map execution's report, with the files it wrote.
  lemma SomeReport(file: string, content: string, app: App, nReduce: nat, temp: map<nat, seq<KeyValue>>)
    returns (report: Report, temp': map<nat, seq<KeyValue>>)
    requires nReduce > 0
    ensures report.task == file && Grows(temp, temp')
    ensures GoodReport(report, content, app, nReduce, temp') && FreshFiles(report.files, temp)
  {
    var kva := ListOf(app.emits(file, content));
    var n := NameAbove(temp.Keys);
    report := Report(file, map b | b in Keys(kva, ByBucket(app, nReduce)) :: n + b);
    temp' := NumberedFiles(report, kva, ByBucket(app, nReduce), n, temp);
  }

  // The lines for these keys, in some order.
  lemma {:induction false} SomeLines(kva: seq<KeyValue>, app: App, keys: set<string>) returns (lines: seq<Line>)
    requires keys <= Keys(kva, MrSpec.KeyOf)
    ensures DistinctKeys(lines) && forall k :: k in keys ==> HasKey(lines, k)
    ensures forall i :: 0 <= i < |lines| ==> lines[i].key in keys && GoodLine(lines[i], multiset(kva), app)
    decreases |keys|
  {
    if keys == {} {
      lines := [];
    } else {
      var k :| k in keys;
      var rest := SomeLines(kva, app, keys - {k});
      var line := Line(k, app.reducef(k, Values(Members(kva, MrSpec.KeyOf, k))));
      GroupLine(kva, app, line);
      HasKeyGrows(rest, line);
      lines := rest + [line];
    }
  }

  lemma SomeOutput(kva: seq<KeyValue>, app: App) returns (lines: seq<Line>)
    ensures IsOutput(lines, multiset(kva), app)
  {
    lines := SomeLines(kva, app, Keys(kva, MrSpec.KeyOf));
    forall kv | kv in multiset(kva) ensures HasKey(lines, kv.key) {
      var i :| 0 <= i < |kva| && kva[i] == kv;
      assert MrSpec.KeyOf(kva[i]) in Keys(kva, MrSpec.KeyOf);
    }
  }

  // ----- Going on -----

  ghost predicate At(j: Setup, states: seq<State>, events: seq<Event>, s: State) {
    Run(j, states, events) && states[|events|] == s
  }

  // One step more.
  lemma GoOn(j: Setup, states: seq<State>, events: seq<Event>, s: State, e: Event, t: State)
    returns (all: seq<State>, more: seq<Event>)
    requires At(j, states, events, s) && Step(j, s, e, t)
    ensures At(j, all, more, t) && states <= all && events <= more
    ensures Incomplete(t.coord.maps) == Incomplete(s.coord.maps) - (if e.DeliverMap? then {e.report.task} else {})
    ensures Incomplete(t.coord.reduces) == Incomplete(s.coord.reduces) - (if e.DeliverReduce? then {e.id} else {})
  {
    IncompleteShrinks(j, s, e, t);
    all, more := states + [t], events + [e];
    forall i | 0 <= i < |more| ensures StepAt(j, all, more, i) {
      if i < |events| { assert StepAt(j, states, events, i); }
    }
  }

  // A map task that is left, handed out after the timeout.
  lemma HandMap(j: Setup, s: State) returns (f: string, s1: State, s2: State)
    requires Inv(j, s) && TimeInv(s) && !s.coord.maps.AllCompleted()
    ensures Step(j, s, Tick(TaskTimeout + 1), s1) && Step(j, s1, Assign(MapTask(f)), s2)
    ensures f in Incomplete(s.coord.maps) && f in s2.mapHanded
  {
    var now := s.now + TaskTimeout + 1;
    f := SomePick(s.coord.maps, now, s.now);
    s1 := s.(now := now);
    s2 := s1.(coord := s.coord.(maps := s.coord.maps.Assign(f, now)),
              mapHanded := s.mapHanded + {f}, handouts := s.handouts + [Handout(MapTask(f), now)]);
    assert s2.redHanded == s1.redHanded + {};
  }

  // A map task that was handed out, run by some worker and reported.
  lemma RunAndReport(j: Setup, s: State, f: string) returns (report: Report, s1: State, s2: State)
    requires j.nReduce > 0 && f in s.mapHanded && f in j.contents
    ensures report.task == f && Step(j, s, RunMap(report), s1) && Step(j, s1, DeliverMap(report), s2)
  {
    var temp;
    report, temp := SomeReport(f, j.contents[f], j.app, j.nReduce, s.temp);
    s1 := s.(temp := temp, reports := s.reports + {report});
    s2 := s1.(coord := s1.coord.ReportMap(report),
              commits := if s1.coord.maps.IsCompleted(report.task) then s1.commits else s1.commits + [report]);
  }

  // The same for a reduce task, whose list is read in between.
  lemma HandReduce(j: Setup, s: State) returns (r: nat, s1: State, s2: State)
    requires Inv(j, s) && TimeInv(s) && s.coord.maps.AllCompleted() && !s.coord.reduces.AllCompleted()
    ensures Step(j, s, Tick(TaskTimeout + 1), s1) && Step(j, s1, Assign(ReduceTask(r)), s2)
    ensures r in Incomplete(s.coord.reduces) && r in s2.redHanded && r in s2.coord.filenames
  {
    var now := s.now + TaskTimeout + 1;
    r := SomePick(s.coord.reduces, now, s.now);
    s1 := s.(now := now);
    s2 := s1.(coord := s.coord.(reduces := s.coord.reduces.Assign(r, now)),
              redHanded := s.redHanded + {r}, handouts := s.handouts + [Handout(ReduceTask(r), now)]);
    assert s2.mapHanded == s1.mapHanded + {};
  }

  lemma ReduceAndReport(j: Setup, s: State, r: nat) returns (job: ReduceJob, s1: State, s2: State, s3: State)
    requires j.nReduce > 0 && r in s.redHanded && r in s.coord.filenames
    ensures Step(j, s, Encode(r), s1) && Step(j, s1, RunReduce(job), s2) && Step(j, s2, DeliverReduce(r), s3)
  {
    job := ReduceJob(r, s.coord.filenames[r]);
    var lines := SomeOutput(ReadAll(s.temp, job.filenames), j.app);
    s1 := s.(jobs := s.jobs + {job});
    s2 := s1.(outs := s1.outs[r := lines], redReports := s1.redReports + {r});
    s3 := s2.(coord := s2.coord.ReportReduce(r));
  }

  lemma RunKeeps(j: Setup, states: seq<State>, events: seq<Event>, s: State)
    requires At(j, states, events, s)
    ensures Inv(j, s) && TimeInv(s)
  {
    RunInv(j, states, events, |events|);
    TimeRun(j, states, events, |events|);
  }

  lemma MapHanded(j: Setup, states: seq<State>, events: seq<Event>, s: State)
    returns (states': seq<State>, events': seq<Event>, f: string, t: State)
    requires At(j, states, events, s) && !s.coord.maps.AllCompleted()
    ensures At(j, states', events', t) && states <= states' && events <= events'
    ensures Incomplete(t.coord.maps) == Incomplete(s.coord.maps)
    ensures f in Incomplete(s.coord.maps) && f in t.mapHanded
  {
    RunKeeps(j, states, events, s);
    var s1;
    f, s1, t := HandMap(j, s);
    states', events' := GoOn(j, states, events, s, Tick(TaskTimeout + 1), s1);
    states', events' := GoOn(j, states', events', s1, Assign(MapTask(f)), t);
  }

  lemma MapRound(j: Setup, states: seq<State>, events: seq<Event>, s: State)
    returns (states': seq<State>, events': seq<Event>, t: State)
    requires At(j, states, events, s) && !s.coord.maps.AllCompleted()
    requires forall f :: f in FileSet(j) ==> f in j.contents
    ensures At(j, states', events', t) && states <= states' && events <= events'
    ensures Incomplete(t.coord.maps) < Incomplete(s.coord.maps)
  {
    RunKeeps(j, states, events, s);
    var f, s1;
    states', events', f, s1 := MapHanded(j, states, events, s);
    var report, s2, s3 := RunAndReport(j, s1, f);
    states', events' := GoOn(j, states', events', s1, RunMap(report), s2);
    states', events' := GoOn(j, states', events', s2, DeliverMap(report), s3);
    t := s3;
  }

  lemma ReduceHanded(j: Setup, states: seq<State>, events: seq<Event>, s: State)
    returns (states': seq<State>, events': seq<Event>, r: nat, t: State)
    requires At(j, states, events, s) && s.coord.maps.AllCompleted() && !s.coord.reduces.AllCompleted()
    ensures At(j, states', events', t) && states <= states' && events <= events'
    ensures Incomplete(t.coord.maps) == Incomplete(s.coord.maps)
    ensures Incomplete(t.coord.reduces) == Incomplete(s.coord.reduces)
    ensures r in Incomplete(s.coord.reduces) && r in t.redHanded && r in t.coord.filenames
  {
    RunKeeps(j, states, events, s);
    var s1;
    r, s1, t := HandReduce(j, s);
    states', events' := GoOn(j, states, events, s, Tick(TaskTimeout + 1), s1);
    states', events' := GoOn(j, states', events', s1, Assign(ReduceTask(r)), t);
  }

  lemma ReduceRound(j: Setup, states: seq<State>, events: seq<Event>, s: State)
    returns (states': seq<State>, events': seq<Event>, t: State)
    requires At(j, states, events, s) && s.coord.maps.AllCompleted() && !s.coord.reduces.AllCompleted()
    ensures At(j, states', events', t) && states <= states' && events <= events'
    ensures Incomplete(t.coord.maps) <= Incomplete(s.coord.maps)
    ensures Incomplete(t.coord.reduces) < Incomplete(s.coord.reduces)
  {
    var r, s1;
    states', events', r, s1 := ReduceHanded(j, states, events, s);
    var job, s2, s3, s4 := ReduceAndReport(j, s1, r);
    states', events' := GoOn(j, states', events', s1, Encode(r), s2);
    states', events' := GoOn(j, states', events', s2, RunReduce(job), s3);
    states', events' := GoOn(j, states', events', s3, DeliverReduce(r), s4);
    t := s4;
  }

  // The run goes on to Done.
  lemma {:induction false} Finish(j: Setup, states: seq<State>, events: seq<Event>, s: State)
    returns (states': seq<State>, events': seq<Event>)
    requires At(j, states, events, s) && forall f :: f in j.files ==> f in j.contents
    ensures Run(j, states', events') && states <= states' && events <= events' && states'[|events'|].coord.Done()
    decreases |Incomplete(s.coord.maps)|, |Incomplete(s.coord.reduces)|
  {
    if s.coord.Done() {
      states', events' := states, events;
    } else {
      var mid, done, t;
      if s.coord.maps.AllCompleted() {
        mid, done, t := ReduceRound(j, states, events, s);
        assert Incomplete(s.coord.maps) == {};
        Smaller(Incomplete(t.coord.reduces), Incomplete(s.coord.reduces));
      } else {
        mid, done, t := MapRound(j, states, events, s);
        Smaller(Incomplete(t.coord.maps), Incomplete(s.coord.maps));
      }
      states', events' := Finish(j, mid, done, t);
    }
  }

  lemma {:induction false} Smaller<K>(a: set<K>, b: set<K>)
    requires a < b
    ensures |a| < |b|
  {
    assert b == a + (b - a);
    assert b - a != {};
  }

  ghost predicate CanFinish(j: Setup, states: seq<State>, events: seq<Event>) {
    exists states': seq<State>, events': seq<Event> ::
      Run(j, states', events') && states <= states' && events <= events' && states'[|events'|].coord.Done()
  }

  // Whatever has happened, the job can still be finished if and only if every input is readable.
  lemma CanFinishIff(j: Setup, states: seq<State>, events: seq<Event>)
    requires Run(j, states, events)
    ensures CanFinish(j, states, events) <==> forall f :: f in j.files ==> f in j.contents
  {
    if CanFinish(j, states, events) {
      var states': seq<State>, events': seq<Event> :|
        Run(j, states', events') && states <= states' && events <= events' && states'[|events'|].coord.Done();
      MrRefinement.DoneIsRight(j, states', events', |events'|, Listing(FileSet(j)));
    }
    if forall f :: f in j.files ==> f in j.contents {
      var states', events' := Finish(j, states, events, states[|events|]);
    }
  }
}
