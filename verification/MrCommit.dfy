// Commit atomicity of map tasks: the intermediate files on the reduce tasks' lists are those of
// the first report of each completed map task, each in its own bucket, and none is there twice.

module MrCommit {
  import opened Collections
  import opened MrTasks
  import opened MrWorker
  import opened MrSystem

  ghost predicate Delivers(events: seq<Event>, task: string) {
    exists i :: 0 <= i < |events| && events[i].DeliverMap? && events[i].report.task == task
  }

  // Of the reports that reached the coordinator, the first of each task.
  ghost function FirstReports(events: seq<Event>): seq<Report> {
    if events == [] then []
    else
      var n := |events| - 1;
      if events[n].DeliverMap? && !Delivers(events[..n], events[n].report.task)
      then FirstReports(events[..n]) + [events[n].report]
      else FirstReports(events[..n])
  }

  ghost predicate HasTask(reports: seq<Report>, task: string) {
    exists i :: 0 <= i < |reports| && reports[i].task == task
  }

  lemma HasTaskGrows(reports: seq<Report>, report: Report, task: string)
    ensures HasTask(reports + [report], task) <==> HasTask(reports, task) || report.task == task
  {
    var more := reports + [report];
    assert more[|reports|] == report;
    if HasTask(reports, task) {
      var i :| 0 <= i < |reports| && reports[i].task == task;
      assert more[i].task == task;
    }
  }

  lemma DeliversGrows(events: seq<Event>, task: string)
    requires events != []
    ensures var e := events[|events| - 1];
      Delivers(events, task) <==> Delivers(events[..|events| - 1], task) || (e.DeliverMap? && e.report.task == task)
  {
    if Delivers(events[..|events| - 1], task) {
      var i :| 0 <= i < |events| - 1 && events[..|events| - 1][i].DeliverMap? && events[..|events| - 1][i].report.task == task;
      assert events[i].DeliverMap? && events[i].report.task == task;
    }
  }

  lemma {:induction false} FirstReportsTasks(events: seq<Event>, task: string)
    ensures HasTask(FirstReports(events), task) <==> Delivers(events, task)
  {
    if events != [] {
      var e := events[|events| - 1];
      FirstReportsTasks(events[..|events| - 1], task);
      DeliversGrows(events, task);
      if e.DeliverMap? { HasTaskGrows(FirstReports(events[..|events| - 1]), e.report, task); }
    }
  }

  lemma {:induction false} FirstStep(j: Setup, s: State, before: seq<Event>, e: Event, after: seq<Event>, t: State)
    requires Inv(j, s) && Step(j, s, e, t) && s.commits == FirstReports(before) && after == before + [e]
    ensures t.commits == FirstReports(after)
  {
    assert after[..|before|] == before;
    if e.DeliverMap? {
      FirstReportsTasks(before, e.report.task);
      assert s.coord.maps.IsCompleted(e.report.task) <==> Committed(s, e.report.task);
      assert HasTask(s.commits, e.report.task) <==> Committed(s, e.report.task);
    }
  }

  lemma StepOfRun(j: Setup, states: seq<State>, events: seq<Event>, i: nat)
    requires Run(j, states, events) && i < |events|
    ensures Inv(j, states[i]) && Step(j, states[i], events[i], states[i + 1])
  {
    RunInv(j, states, events, i);
    assert StepAt(j, states, events, i);
  }

  lemma OneMore(events: seq<Event>, i: nat)
    requires i < |events|
    ensures events[..i + 1] == events[..i] + [events[i]]
  {
  }

  // The first i events have the first reports that state i has accepted.
  ghost predicate AcceptedFirst(states: seq<State>, events: seq<Event>, i: nat)
    requires i <= |events| && |states| == |events| + 1
  {
    states[i].commits == FirstReports(events[..i])
  }

  lemma FirstAt(j: Setup, states: seq<State>, events: seq<Event>, i: nat)
    requires Run(j, states, events) && i < |events| && AcceptedFirst(states, events, i)
    ensures AcceptedFirst(states, events, i + 1)
  {
    StepOfRun(j, states, events, i);
    OneMore(events, i);
    FirstStep(j, states[i], events[..i], events[i], events[..i + 1], states[i + 1]);
  }

  // What the model records as accepted reports are the first reports.
  lemma {:induction false} CommitsAreFirst(j: Setup, states: seq<State>, events: seq<Event>, i: nat)
    requires Run(j, states, events) && i <= |events|
    ensures states[i].commits == FirstReports(events[..i])
  {
    if i > 0 {
      CommitsAreFirst(j, states, events, i - 1);
      FirstAt(j, states, events, i - 1);
    }
  }

  // ----- No file is shared -----

  ghost predicate Unshared(p: Report, q: Report) {
    forall b, c :: b in p.files && c in q.files && p.files[b] == q.files[c] ==> p == q && b == c
  }

  ghost predicate FilesInv(s: State) {
    && (forall p :: p in s.reports ==> forall b :: b in p.files ==> p.files[b] in s.temp)
    && (forall p, q :: p in s.reports && q in s.reports ==> Unshared(p, q))
  }

  lemma RunMapFiles(j: Setup, s: State, report: Report, t: State)
    requires j.nReduce > 0 && FilesInv(s) && Step(j, s, RunMap(report), t)
    ensures FilesInv(t)
  {
    var kva :| Holds(report, kva, ByBucket(j.app, j.nReduce), t.temp);
    forall p, q | p in t.reports && q in t.reports ensures Unshared(p, q) {
      assert p in s.reports && q in s.reports ==> Unshared(p, q);
    }
  }

  lemma FilesStep(j: Setup, s: State, e: Event, t: State)
    requires j.nReduce > 0 && FilesInv(s) && Step(j, s, e, t)
    ensures FilesInv(t)
  {
    if e.RunMap? { RunMapFiles(j, s, e.report, t); }
  }

  lemma {:induction false} FilesRun(j: Setup, states: seq<State>, events: seq<Event>, i: nat)
    requires Run(j, states, events) && i <= |events|
    ensures FilesInv(states[i])
  {
    if i > 0 {
      FilesRun(j, states, events, i - 1);
      RunInv(j, states, events, i - 1);
      assert StepAt(j, states, events, i - 1);
      FilesStep(j, states[i - 1], events[i - 1], states[i]);
    }
  }

  // Some accepted report has this file for bucket r.
  ghost predicate HasFile(commits: seq<Report>, r: nat, f: nat) {
    exists i :: 0 <= i < |commits| && r in commits[i].files && commits[i].files[r] == f
  }

  lemma {:induction false} FilesOfHas(commits: seq<Report>, r: nat, f: nat)
    ensures f in FilesOf(commits, r) <==> HasFile(commits, r, f)
  {
    if commits != [] {
      var n := |commits| - 1;
      FilesOfHas(commits[..n], r, f);
      if HasFile(commits, r, f) {
        var i :| 0 <= i < |commits| && r in commits[i].files && commits[i].files[r] == f;
        if i < n {
          assert commits[..n][i] == commits[i];
          assert HasFile(commits[..n], r, f);
        }
      }
      if HasFile(commits[..n], r, f) {
        var i :| 0 <= i < n && r in commits[..n][i].files && commits[..n][i].files[r] == f;
        assert r in commits[i].files && commits[i].files[r] == f;
      }
    }
  }

  lemma {:induction false} ListDistinct(commits: seq<Report>, r: nat)
    requires DistinctTasks(commits)
    requires forall i, k :: 0 <= i < |commits| && 0 <= k < |commits| ==> Unshared(commits[i], commits[k])
    ensures Distinct(FilesOf(commits, r))
  {
    if commits != [] {
      var n := |commits| - 1;
      var c := commits[n];
      ListDistinct(commits[..n], r);
      if r in c.files {
        FilesOfHas(commits[..n], r, c.files[r]);
        assert forall i :: 0 <= i < n ==> Unshared(commits[..n][i], c);
      }
    }
  }

  // In every reachable state the lists are those of the first reports, a map task is completed
  // exactly when a report of it has arrived, and no file is listed twice, in one list or two.
  lemma CommitIsAtomic(j: Setup, states: seq<State>, events: seq<Event>, i: nat)
    requires Run(j, states, events) && i <= |events|
    ensures states[i].coord.filenames.Keys == Below(j.nReduce)
    ensures forall r :: r in Below(j.nReduce) ==>
      states[i].coord.filenames[r] == FilesOf(FirstReports(events[..i]), r)
    ensures forall f :: states[i].coord.maps.IsCompleted(f) <==> Delivers(events[..i], f)
    ensures forall r :: r in Below(j.nReduce) ==> Distinct(states[i].coord.filenames[r])
    ensures forall r, q | r in Below(j.nReduce) && q in Below(j.nReduce) && r != q ::
      forall f :: f in states[i].coord.filenames[r] ==> f !in states[i].coord.filenames[q]
  {
    var s := states[i];
    RunInv(j, states, events, i);
    FilesRun(j, states, events, i);
    CommitsAreFirst(j, states, events, i);
    forall f ensures s.coord.maps.IsCompleted(f) <==> Delivers(events[..i], f) {
      FirstReportsTasks(events[..i], f);
      assert s.coord.maps.IsCompleted(f) <==> Committed(s, f);
    }
    forall r | r in Below(j.nReduce) ensures Distinct(s.coord.filenames[r]) {
      ListDistinct(s.commits, r);
    }
    forall r, q, f | r in Below(j.nReduce) && q in Below(j.nReduce) && r != q && f in s.coord.filenames[r]
      ensures f !in s.coord.filenames[q]
    {
      OneBucket(s, r, q, f);
    }
  }

  lemma {:induction false} OneBucket(s: State, r: nat, q: nat, f: nat)
    requires FilesInv(s) && forall i :: 0 <= i < |s.commits| ==> s.commits[i] in s.reports
    requires r != q && f in FilesOf(s.commits, r)
    ensures f !in FilesOf(s.commits, q)
  {
    FilesOfHas(s.commits, r, f);
    FilesOfHas(s.commits, q, f);
    var i :| 0 <= i < |s.commits| && r in s.commits[i].files && s.commits[i].files[r] == f;
    assert forall k :: 0 <= k < |s.commits| ==> Unshared(s.commits[i], s.commits[k]);
  }

  lemma FrozenStep(j: Setup, s: State, e: Event, t: State)
    requires Inv(j, s) && Step(j, s, e, t) && s.redHanded != {}
    ensures t.coord.filenames == s.coord.filenames && t.redHanded != {}
  {
    var r :| r in s.redHanded;
    assert s.coord.maps.AllCompleted();
    assert r in t.redHanded;
    if e.DeliverMap? { DeliverMapInv(j, s, e.report, t); }
  }

  lemma FrozenAt(j: Setup, states: seq<State>, events: seq<Event>, i: nat)
    requires Run(j, states, events) && i < |events| && states[i].redHanded != {}
    ensures states[i + 1].coord.filenames == states[i].coord.filenames && states[i + 1].redHanded != {}
  {
    RunInv(j, states, events, i);
    assert StepAt(j, states, events, i);
    FrozenStep(j, states[i], events[i], states[i + 1]);
  }

  // Once a reduce task has been handed out, no list changes again.
  lemma {:induction false} ListsFrozen(j: Setup, states: seq<State>, events: seq<Event>, i: nat, k: nat)
    requires Run(j, states, events) && i <= k <= |events| && states[i].redHanded != {}
    ensures states[k].coord.filenames == states[i].coord.filenames
    ensures states[k].redHanded != {}
  {
    if i < k {
      ListsFrozen(j, states, events, i, k - 1);
      FrozenAt(j, states, events, k - 1);
    }
  }
}
