// The distributed run: the coordinator's requests, worker executions that may be repeated,
// late or abandoned, reports that may arrive any number of times or never, and the clock.

module MrSystem {
  import opened MrSpec
  import opened MrTasks
  import opened MrWorker

  // The command line, the input files' contents, the plugin, and the number of buckets.
  datatype Setup = Setup(files: seq<string>, contents: map<string, string>, app: App, nReduce: nat)

  datatype Handout = Handout(task: Answer, at: nat)

  // mapHanded and redHanded: tasks some AssignTask has answered with. jobs: reduce tasks as
  // they were encoded for a worker, with the file list of that moment. reports and redReports:
  // reports some worker has sent. The last two fields only record what happened: the reports
  // that counted, and every hand-out with its time.
  datatype State = State(
    now: nat,
    coord: Coord,
    temp: map<nat, seq<KeyValue>>,
    outs: map<nat, seq<Line>>,
    mapHanded: set<string>,
    reports: set<Report>,
    redHanded: set<nat>,
    jobs: set<ReduceJob>,
    redReports: set<nat>,
    commits: seq<Report>,
    handouts: seq<Handout>)

  // A worker that crashes takes no further step; what it leaves behind is Abandon's doing.
  datatype Event =
    | Tick(d: nat)
    | Assign(answer: Answer)
    | Encode(id: nat)
    | RunMap(report: Report)
    | Abandon
    | DeliverMap(report: Report)
    | RunReduce(job: ReduceJob)
    | DeliverReduce(id: nat)

  ghost function FileSet(j: Setup): set<string> { set f | f in j.files }

  ghost predicate Init(j: Setup, s: State) {
    && j.nReduce > 0
    && s.coord == InitCoord(FileSet(j), j.nReduce)
    && s.temp == map[] && s.outs == map[]
    && s.mapHanded == {} && s.reports == {} && s.redHanded == {} && s.jobs == {} && s.redReports == {}
    && s.commits == [] && s.handouts == []
  }

  ghost predicate Step(j: Setup, s: State, e: Event, t: State)
    requires j.nReduce > 0
  {
    match e
    case Tick(d) => t == s.(now := s.now + d)
    case Assign(answer) =>
      && s.coord.Assigns(s.now, answer, t.coord)
      && t == s.(coord := t.coord,
                 mapHanded := s.mapHanded + (if answer.MapTask? then {answer.file} else {}),
                 redHanded := s.redHanded + (if answer.ReduceTask? then {answer.id} else {}),
                 handouts := if answer.NoTask? then s.handouts else s.handouts + [Handout(answer, s.now)])
    // The answer points to the shared record of the reduce task; its list is read when the answer is encoded.
    case Encode(id) =>
      && id in s.redHanded && id in s.coord.filenames
      && t == s.(jobs := s.jobs + {ReduceJob(id, s.coord.filenames[id])})
    case RunMap(report) =>
      && report.task in s.mapHanded && report.task in j.contents
      && Grows(s.temp, t.temp)
      && GoodReport(report, j.contents[report.task], j.app, j.nReduce, t.temp)
      && FreshFiles(report.files, s.temp)
      && t == s.(temp := t.temp, reports := s.reports + {report})
    // A map execution stopped part-way leaves temporary files nobody reports.
    case Abandon => Grows(s.temp, t.temp) && t == s.(temp := t.temp)
    case DeliverMap(report) =>
      && report in s.reports
      && t == s.(coord := s.coord.ReportMap(report),
                 commits := if s.coord.maps.IsCompleted(report.task) then s.commits else s.commits + [report])
    case RunReduce(job) =>
      && job in s.jobs && job.id in t.outs
      && IsOutput(t.outs[job.id], multiset(ReadAll(s.temp, job.filenames)), j.app)
      && t == s.(outs := s.outs[job.id := t.outs[job.id]], redReports := s.redReports + {job.id})
    case DeliverReduce(id) => id in s.redReports && t == s.(coord := s.coord.ReportReduce(id))
  }

  ghost predicate StepAt(j: Setup, states: seq<State>, events: seq<Event>, i: nat)
    requires j.nReduce > 0 && i < |events| && |states| == |events| + 1
  {
    Step(j, states[i], events[i], states[i + 1])
  }

  ghost predicate Run(j: Setup, states: seq<State>, events: seq<Event>) {
    && |states| == |events| + 1
    && Init(j, states[0])
    && forall i :: 0 <= i < |events| ==> StepAt(j, states, events, i)
  }

  // ----- Commit atomicity: the invariant -----

  // The file each accepted report has for bucket r, in the order they were accepted.
  ghost function FilesOf(commits: seq<Report>, r: nat): seq<nat> {
    if commits == [] then []
    else
      var c := commits[|commits| - 1];
      FilesOf(commits[..|commits| - 1], r) + (if r in c.files then [c.files[r]] else [])
  }

  ghost predicate Shape(j: Setup, s: State) {
    && j.nReduce > 0
    && s.coord.maps.status.Keys == FileSet(j)
    && s.coord.reduces.status.Keys == Below(j.nReduce)
    && s.coord.filenames.Keys == Below(j.nReduce)
    && s.mapHanded <= FileSet(j)
  }

  ghost predicate Reported(j: Setup, s: State, report: Report)
    requires j.nReduce > 0
  {
    && report.task in FileSet(j) && report.task in j.contents
    && GoodReport(report, j.contents[report.task], j.app, j.nReduce, s.temp)
  }

  ghost predicate Committed(s: State, task: string) {
    exists i :: 0 <= i < |s.commits| && s.commits[i].task == task
  }

  ghost predicate DistinctTasks(commits: seq<Report>) {
    forall i, k :: 0 <= i < k < |commits| ==> commits[i].task != commits[k].task
  }

  ghost predicate AllReported(j: Setup, s: State)
    requires j.nReduce > 0
  {
    forall report :: report in s.reports ==> Reported(j, s, report)
  }

  ghost predicate CompletedAreCommitted(s: State) {
    forall f :: s.coord.maps.IsCompleted(f) <==> Committed(s, f)
  }

  ghost predicate Listed(filenames: map<nat, seq<nat>>, commits: seq<Report>) {
    forall r :: r in filenames ==> filenames[r] == FilesOf(commits, r)
  }

  // Exactly one accepted report for each completed map task, and its files are exactly what
  // the reduce tasks' lists hold.
  ghost predicate CommitInv(j: Setup, s: State)
    requires j.nReduce > 0
  {
    && AllReported(j, s)
    && (forall i :: 0 <= i < |s.commits| ==> s.commits[i] in s.reports)
    && DistinctTasks(s.commits)
    && CompletedAreCommitted(s)
    && Listed(s.coord.filenames, s.commits)
  }

  // An output file is the right output for the files its reduce task's list has.
  ghost predicate OutRight(j: Setup, s: State, r: nat)
    requires r in s.outs
  {
    && s.coord.maps.AllCompleted() && r in s.coord.filenames
    && IsOutput(s.outs[r], multiset(ReadAll(s.temp, s.coord.filenames[r])), j.app)
  }

  // No reduce task is handed out before all maps are completed, and no list changes after.
  ghost predicate ReduceInv(j: Setup, s: State) {
    && (forall r :: r in s.redHanded ==> s.coord.maps.AllCompleted() && r < j.nReduce)
    && (forall job :: job in s.jobs ==>
          s.coord.maps.AllCompleted() && job.id in s.coord.filenames && job.filenames == s.coord.filenames[job.id])
    && (forall r :: r in s.outs ==> OutRight(j, s, r))
    && s.redReports <= s.outs.Keys
    && (forall r :: s.coord.reduces.IsCompleted(r) ==> r in s.outs)
  }

  ghost predicate Inv(j: Setup, s: State) {
    Shape(j, s) && CommitInv(j, s) && ReduceInv(j, s)
  }

  lemma InitInv(j: Setup, s: State)
    requires Init(j, s)
    ensures Inv(j, s)
  {
  }

  // Files only being added, a good report stays good and a known list reads the same.
  lemma GoodReportGrows(report: Report, content: string, app: App, nReduce: nat,
                        temp: map<nat, seq<KeyValue>>, temp': map<nat, seq<KeyValue>>)
    requires nReduce > 0 && Grows(temp, temp') && GoodReport(report, content, app, nReduce, temp)
    ensures GoodReport(report, content, app, nReduce, temp')
  {
    var kva :| multiset(kva) == app.emits(report.task, content) && Holds(report, kva, ByBucket(app, nReduce), temp);
    assert Holds(report, kva, ByBucket(app, nReduce), temp');
  }

  lemma {:induction false} ReadAllGrows(temp: map<nat, seq<KeyValue>>, temp': map<nat, seq<KeyValue>>, names: seq<nat>)
    requires Grows(temp, temp') && forall f :: f in names ==> f in temp
    ensures ReadAll(temp', names) == ReadAll(temp, names)
  {
    if names != [] { ReadAllGrows(temp, temp', names[..|names| - 1]); }
  }

  lemma {:induction false} ListedFilesExist(j: Setup, s: State, commits: seq<Report>, r: nat)
    requires j.nReduce > 0 && forall i :: 0 <= i < |commits| ==> Reported(j, s, commits[i])
    ensures forall f :: f in FilesOf(commits, r) ==> f in s.temp
  {
    if commits != [] {
      ListedFilesExist(j, s, commits[..|commits| - 1], r);
      var c := commits[|commits| - 1];
      assert Reported(j, s, c);
      var kva :| Holds(c, kva, ByBucket(j.app, j.nReduce), s.temp);
    }
  }

  lemma ReportedGrows(j: Setup, s: State, t: State)
    requires j.nReduce > 0 && Grows(s.temp, t.temp) && t.reports == s.reports && AllReported(j, s)
    ensures AllReported(j, t)
  {
    forall report | report in t.reports ensures Reported(j, t, report) {
      assert Reported(j, s, report);
      GoodReportGrows(report, j.contents[report.task], j.app, j.nReduce, s.temp, t.temp);
    }
  }

  lemma CommitsReported(j: Setup, s: State)
    requires j.nReduce > 0 && CommitInv(j, s)
    ensures forall i :: 0 <= i < |s.commits| ==> Reported(j, s, s.commits[i])
  {
  }

  // Steps that accept no report.
  lemma CommitFrame(j: Setup, s: State, t: State)
    requires j.nReduce > 0 && CommitInv(j, s)
    requires Grows(s.temp, t.temp) && t.reports == s.reports && t.commits == s.commits
    requires t.coord.filenames == s.coord.filenames
    requires forall f :: t.coord.maps.IsCompleted(f) <==> s.coord.maps.IsCompleted(f)
    ensures CommitInv(j, t)
  {
    ReportedGrows(j, s, t);
    forall f ensures Committed(t, f) <==> Committed(s, f) {
    }
  }

  // A file that is there reads the same when files are added.
  lemma OutGrows(j: Setup, s: State, t: State, r: nat)
    requires j.nReduce > 0 && CommitInv(j, s) && r in s.outs && OutRight(j, s, r)
    requires Grows(s.temp, t.temp) && r in t.outs && t.outs[r] == s.outs[r]
    requires t.coord.maps == s.coord.maps && t.coord.filenames == s.coord.filenames
    ensures OutRight(j, t, r)
  {
    CommitsReported(j, s);
    ListedFilesExist(j, s, s.commits, r);
    assert s.coord.filenames[r] == FilesOf(s.commits, r);
    ReadAllGrows(s.temp, t.temp, s.coord.filenames[r]);
  }

  lemma ReduceGrows(j: Setup, s: State, t: State)
    requires Inv(j, s) && Grows(s.temp, t.temp) && t == s.(temp := t.temp, reports := t.reports)
    ensures ReduceInv(j, t)
  {
    forall r | r in t.outs ensures OutRight(j, t, r) {
      OutGrows(j, s, t, r);
    }
  }

  lemma AbandonInv(j: Setup, s: State, t: State)
    requires Inv(j, s) && Step(j, s, Abandon, t)
    ensures Inv(j, t)
  {
    CommitFrame(j, s, t);
    ReduceGrows(j, s, t);
  }

  lemma RunMapReports(j: Setup, s: State, report: Report, t: State)
    requires Shape(j, s) && CommitInv(j, s) && Step(j, s, RunMap(report), t)
    ensures AllReported(j, t)
  {
    var mid := s.(temp := t.temp);
    ReportedGrows(j, s, mid);
    forall rep | rep in t.reports ensures Reported(j, t, rep) {
      assert rep != report ==> Reported(j, mid, rep);
    }
  }

  lemma RunMapInv(j: Setup, s: State, report: Report, t: State)
    requires Inv(j, s) && Step(j, s, RunMap(report), t)
    ensures Inv(j, t)
  {
    RunMapReports(j, s, report, t);
    ReduceGrows(j, s, t);
    assert forall f :: Committed(t, f) <==> Committed(s, f);
  }

  lemma CommittedGrows(s: State, t: State, report: Report)
    requires t.commits == s.commits + [report]
    ensures forall f :: Committed(t, f) <==> Committed(s, f) || f == report.task
  {
    var n := |s.commits|;
    forall f ensures Committed(t, f) <==> Committed(s, f) || f == report.task {
      if Committed(s, f) {
        var i :| 0 <= i < n && s.commits[i].task == f;
        assert t.commits[i].task == f;
      }
      assert t.commits[n].task == report.task;
    }
  }

  // Each list grows by the file an accepted report has for its bucket.
  lemma ListsGrow(c: Coord, commits: seq<Report>, report: Report)
    requires Listed(c.filenames, commits)
    ensures Listed(c.AddFiles(report.files), commits + [report])
  {
    var more := commits + [report];
    assert more[..|commits|] == commits;
    forall r | r in c.filenames ensures c.AddFiles(report.files)[r] == FilesOf(more, r) {
      assert c.filenames[r] == FilesOf(commits, r);
    }
  }

  lemma DistinctGrows(s: State, t: State, report: Report)
    requires t.commits == s.commits + [report] && DistinctTasks(s.commits) && !Committed(s, report.task)
    ensures DistinctTasks(t.commits)
  {
    assert forall i :: 0 <= i < |s.commits| ==> t.commits[i] == s.commits[i] && Committed(s, s.commits[i].task);
  }

  // An accepted report commits its task.
  lemma CommitStep(j: Setup, s: State, report: Report, t: State)
    requires Shape(j, s) && CommitInv(j, s) && Step(j, s, DeliverMap(report), t)
    requires !s.coord.maps.IsCompleted(report.task)
    ensures CommitInv(j, t)
  {
    assert Reported(j, s, report);
    ReportedGrows(j, s, t);
    CommittedGrows(s, t, report);
    DistinctGrows(s, t, report);
    ListsGrow(s.coord, s.commits, report);
    CompletedGrows(j, s, report, t);
  }

  lemma CompletedGrows(j: Setup, s: State, report: Report, t: State)
    requires CompletedAreCommitted(s) && report.task in s.coord.maps.status
    requires t.coord.maps == s.coord.maps.Complete(report.task) && t.commits == s.commits + [report]
    ensures CompletedAreCommitted(t)
  {
    CommittedGrows(s, t, report);
    forall f ensures t.coord.maps.IsCompleted(f) <==> Committed(t, f) {
      assert s.coord.maps.IsCompleted(f) <==> Committed(s, f);
    }
  }

  lemma NothingReduced(j: Setup, s: State)
    requires ReduceInv(j, s) && !s.coord.maps.AllCompleted()
    ensures s.redHanded == {} && s.jobs == {} && s.outs == map[] && s.redReports == {}
    ensures forall r :: !s.coord.reduces.IsCompleted(r)
  {
    assert forall r :: r in s.outs ==> OutRight(j, s, r);
    assert s.outs.Keys == {};
  }

  lemma FirstReportOuts(j: Setup, s: State, report: Report, t: State)
    requires Inv(j, s) && Step(j, s, DeliverMap(report), t) && !s.coord.maps.AllCompleted()
    ensures ReduceInv(j, t)
  {
    NothingReduced(j, s);
    assert t.outs == map[] && t.jobs == {} && t.redHanded == {};
  }

  lemma FirstReportInv(j: Setup, s: State, report: Report, t: State)
    requires Inv(j, s) && Step(j, s, DeliverMap(report), t) && !s.coord.maps.IsCompleted(report.task)
    ensures Inv(j, t) && !s.coord.maps.AllCompleted()
  {
    assert Reported(j, s, report);
    assert report.task in s.coord.maps.status;
    CommitStep(j, s, report, t);
    FirstReportOuts(j, s, report, t);
  }

  // Once all maps are completed, a late or repeated report changes nothing at all.
  lemma DeliverMapInv(j: Setup, s: State, report: Report, t: State)
    requires Inv(j, s) && Step(j, s, DeliverMap(report), t)
    ensures Inv(j, t)
    ensures s.coord.maps.AllCompleted() ==> t == s
  {
    if !s.coord.maps.IsCompleted(report.task) {
      FirstReportInv(j, s, report, t);
    } else {
      assert t == s;
    }
  }

  // Handing out a task completes none and forgets none.
  lemma AssignsKeeps(c: Coord, now: nat, answer: Answer, c': Coord)
    requires c.Assigns(now, answer, c')
    ensures c'.filenames == c.filenames
    ensures answer.MapTask? ==> answer.file in c.maps.status && !c.maps.AllCompleted()
    ensures answer.ReduceTask? ==> answer.id in c.reduces.status && c.maps.AllCompleted()
    ensures c'.maps.status.Keys == c.maps.status.Keys && c'.reduces.status.Keys == c.reduces.status.Keys
    ensures forall f :: c'.maps.IsCompleted(f) <==> c.maps.IsCompleted(f)
    ensures forall r :: c'.reduces.IsCompleted(r) <==> c.reduces.IsCompleted(r)
    ensures c'.maps.AllCompleted() <==> c.maps.AllCompleted()
  {
  }

  lemma AssignInv(j: Setup, s: State, answer: Answer, t: State)
    requires Inv(j, s) && Step(j, s, Assign(answer), t)
    ensures Inv(j, t)
  {
    AssignsKeeps(s.coord, s.now, answer, t.coord);
    CommitFrame(j, s, t);
    assert Shape(j, t);
  }

  lemma EncodeInv(j: Setup, s: State, id: nat, t: State)
    requires Inv(j, s) && Step(j, s, Encode(id), t)
    ensures Inv(j, t)
  {
    CommitFrame(j, s, t);
  }

  lemma RunReduceInv(j: Setup, s: State, job: ReduceJob, t: State)
    requires Inv(j, s) && Step(j, s, RunReduce(job), t)
    ensures Inv(j, t)
  {
    CommitFrame(j, s, t);
    RunReduceOuts(j, s, job, t);
  }

  lemma RunReduceOuts(j: Setup, s: State, job: ReduceJob, t: State)
    requires Inv(j, s) && Step(j, s, RunReduce(job), t)
    ensures ReduceInv(j, t)
  {
    assert t.outs.Keys == s.outs.Keys + {job.id};
    forall r | r in t.outs ensures OutRight(j, t, r) {
      if r != job.id { OutGrows(j, s, t, r); }
    }
  }

  lemma DeliverReduceInv(j: Setup, s: State, id: nat, t: State)
    requires Inv(j, s) && Step(j, s, DeliverReduce(id), t)
    ensures Inv(j, t)
  {
    CommitFrame(j, s, t);
    DeliverReduceOuts(j, s, id, t);
  }

  lemma DeliverReduceOuts(j: Setup, s: State, id: nat, t: State)
    requires Inv(j, s) && Step(j, s, DeliverReduce(id), t)
    ensures ReduceInv(j, t)
  {
    forall r | r in t.outs ensures OutRight(j, t, r) {
      OutGrows(j, s, t, r);
    }
    assert forall r :: t.coord.reduces.IsCompleted(r) ==> s.coord.reduces.IsCompleted(r) || r == id;
  }

  lemma StepInv(j: Setup, s: State, e: Event, t: State)
    requires Inv(j, s) && Step(j, s, e, t)
    ensures Inv(j, t)
  {
    match e
    case RunMap(report) => RunMapInv(j, s, report, t);
    case Abandon => AbandonInv(j, s, t);
    case DeliverMap(report) => DeliverMapInv(j, s, report, t);
    case Assign(answer) => AssignInv(j, s, answer, t);
    case Encode(id) => EncodeInv(j, s, id, t);
    case RunReduce(job) => RunReduceInv(j, s, job, t);
    case DeliverReduce(id) => DeliverReduceInv(j, s, id, t);
    case Tick(d) => CommitFrame(j, s, t);
  }

  lemma {:induction false} RunInv(j: Setup, states: seq<State>, events: seq<Event>, i: nat)
    requires Run(j, states, events) && i <= |events|
    ensures Inv(j, states[i])
  {
    if i == 0 {
      InitInv(j, states[0]);
    } else {
      RunInv(j, states, events, i - 1);
      assert StepAt(j, states, events, i - 1);
      StepInv(j, states[i - 1], events[i - 1], states[i]);
    }
  }
}
