// The coordinator and its task managers, which update their maps in place. Each request runs
// under the coordinator's mutex and is one step.

module MrCoordinator {
  import opened Collections
  import opened MrTasks

  // Both task managers keep the same two maps; K is the type of task id.
  class TaskManager<K(==)> {
    var statusMap: map<K, Status>
    var assignedTime: map<K, nat>

    ghost function State(): Table<K>
      reads this
    {
      Table(statusMap, assignedTime)
    }

    constructor (ids: seq<K>)
      ensures State() == InitTable(set k | k in ids)
    {
      statusMap := map[];
      assignedTime := map[];
      new;
      for i := 0 to |ids|
        invariant statusMap == map k | k in ids[..i] :: Pending
        invariant assignedTime == map[]
      {
        assert ids[..i + 1] == ids[..i] + [ids[i]];
        statusMap := statusMap[ids[i] := Pending];
      }
      assert ids[..|ids|] == ids;
    }

    // First any pending task, then any timed-out one, the maps being searched in any order.
    method GetPendingTask(now: nat) returns (r: Option<K>)
      ensures r.Some? ==> State().Pickable(r.value, now)
      ensures r.Some? ==> r.value in statusMap
      ensures r.Some? && statusMap[r.value] != Pending ==>
        && (forall k :: k in statusMap ==> statusMap[k] != Pending)
        && statusMap[r.value] == Assigned
        && (r.value in assignedTime ==> now - assignedTime[r.value] > 10 * 1_000_000_000)
      ensures r.None? ==> forall k :: k in statusMap ==> !State().Pickable(k, now)
    {
      var rest := statusMap.Keys;
      while rest != {}
        invariant rest <= statusMap.Keys
        invariant forall k :: k in statusMap && k !in rest ==> !State().Waiting(k)
        decreases rest
      {
        ghost var m := Member(rest);
        assert m in rest;
        var k :| k in rest;
        if statusMap[k] == Pending {
          return Some(k);
        }
        rest := rest - {k};
      }
      rest := statusMap.Keys;
      while rest != {}
        invariant rest <= statusMap.Keys
        invariant forall k :: k in statusMap && k !in rest ==> !State().TimedOut(k, now)
        decreases rest
      {
        ghost var m := Member(rest);
        assert m in rest;
        var k :| k in rest;
        if statusMap[k] == Assigned && (k !in assignedTime || now > assignedTime[k] + TaskTimeout) {
          return Some(k);
        }
        rest := rest - {k};
      }
      return None;
    }

    method AssignTask(k: K, now: nat) returns (ok: bool)
      modifies this
      ensures State() == old(State()).Assign(k, now)
      ensures ok <==> k in old(statusMap) && old(statusMap)[k] != Completed
    {
      if k !in statusMap || statusMap[k] == Completed {
        return false;
      }
      statusMap := statusMap[k := Assigned];
      assignedTime := assignedTime[k := now];
      return true;
    }

    method CompleteTask(k: K) returns (ok: bool)
      modifies this
      ensures State() == old(State()).Complete(k)
      ensures ok <==> k in old(statusMap)
    {
      if k !in statusMap {
        return false;
      }
      statusMap := statusMap[k := Completed];
      return true;
    }

    method IsTaskCompleted(k: K) returns (completed: bool)
      ensures completed <==> State().IsCompleted(k)
    {
      completed := k in statusMap && statusMap[k] == Completed;
    }

    method AllCompleted() returns (all: bool)
      ensures all <==> State().AllCompleted()
    {
      var rest := statusMap.Keys;
      while rest != {}
        invariant rest <= statusMap.Keys
        invariant forall k :: k in statusMap && k !in rest ==> statusMap[k] == Completed
        decreases rest
      {
        ghost var m := Member(rest);
        assert m in rest;
        var k :| k in rest;
        if statusMap[k] != Completed {
          return false;
        }
        rest := rest - {k};
      }
      return true;
    }
  }

  // k is not completed, and it is pending if anything is.
  ghost predicate PendingFirst<K>(statusMap: map<K, Status>, k: K) {
    && k in statusMap && statusMap[k] != Completed
    && (statusMap[k] != Pending ==> forall j :: j in statusMap ==> statusMap[j] != Pending)
  }

  class Coordinator {
    var workerID: nat
    const mapManager: TaskManager<string>
    const reduceMgr: TaskManager<nat>
    // The Filenames of each reduce task.
    var filenames: map<nat, seq<nat>>

    ghost function State(): Coord
      reads this, mapManager, reduceMgr
    {
      Coord(mapManager.State(), reduceMgr.State(), filenames)
    }

    ghost predicate Separate() {
      mapManager as object != reduceMgr as object
    }

    constructor (files: seq<string>, nReduce: nat)
      ensures Separate() && fresh(mapManager) && fresh(reduceMgr)
      ensures workerID == 0 && State() == InitCoord((set f | f in files), nReduce)
    {
      workerID := 0;
      mapManager := new TaskManager(files);
      var ids := seq(nReduce, i requires 0 <= i < nReduce => i as nat);
      reduceMgr := new TaskManager(ids);
      var lists := EmptyLists(nReduce);
      filenames := lists;
      new;
      assert (set r | r in ids) == Below(nReduce) by {
        forall r | r in Below(nReduce) ensures r in ids { assert ids[r] == r; }
      }
    }

    static method EmptyLists(n: nat) returns (lists: map<nat, seq<nat>>)
      ensures lists == map r | r in Below(n) :: []
    {
      lists := map[];
      for i := 0 to n
        invariant lists == map r | r in Below(i) :: []
      {
        lists := lists[i := []];
      }
    }

    method Register() returns (id: nat)
      modifies `workerID
      ensures id == old(workerID) + 1 && workerID == id
    {
      id := workerID + 1;
      workerID := id;
    }

    method AssignTask(now: nat) returns (answer: Answer)
      requires Separate()
      modifies mapManager, reduceMgr
      ensures old(State()).Assigns(now, answer, State())
      ensures answer.MapTask? ==> PendingFirst(old(mapManager.statusMap), answer.file)
      ensures answer.ReduceTask? ==> PendingFirst(old(reduceMgr.statusMap), answer.id)
      ensures answer.ReduceTask? ==> forall f :: f in mapManager.statusMap ==> mapManager.statusMap[f] == Completed
    {
      var mapTask := mapManager.GetPendingTask(now);
      if mapTask.Some? {
        var ok := mapManager.AssignTask(mapTask.value, now);
        return MapTask(mapTask.value);
      }
      var all := mapManager.AllCompleted();
      if !all {
        return NoTask;
      }
      var reduceTask := reduceMgr.GetPendingTask(now);
      if reduceTask.Some? {
        var ok := reduceMgr.AssignTask(reduceTask.value, now);
        return ReduceTask(reduceTask.value);
      }
      return NoTask;
    }

    method AddFile(id: nat, filename: nat) returns (ok: bool)
      modifies `filenames
      ensures ok <==> id in old(filenames)
      ensures filenames == if ok then old(filenames)[id := old(filenames)[id] + [filename]] else old(filenames)
    {
      if id in filenames {
        filenames := filenames[id := filenames[id] + [filename]];
        return true;
      }
      return false;
    }

    // The files of a report are added bucket by bucket, in any order.
    method AddFiles(files: map<nat, nat>)
      modifies `filenames
      ensures filenames == old(State()).AddFiles(files)
    {
      var rest := files.Keys;
      while rest != {}
        invariant rest <= files.Keys
        invariant filenames == old(State()).AddFiles(map b | b in files && b !in rest :: files[b])
        decreases rest
      {
        ghost var m := Member(rest);
        assert m in rest;
        var id :| id in rest;
        var added := AddFile(id, files[id]);
        rest := rest - {id};
      }
      assert (map b | b in files && b !in {} :: files[b]) == files;
    }

    method ReportMapTask(report: Report)
      requires Separate()
      modifies this`filenames, mapManager
      ensures State() == old(State()).ReportMap(report)
    {
      var completed := mapManager.IsTaskCompleted(report.task);
      if completed {
        return;
      }
      var ok := mapManager.CompleteTask(report.task);
      AddFiles(report.files);
    }

    method ReportReduceTask(id: nat)
      requires Separate()
      modifies reduceMgr
      ensures State() == old(State()).ReportReduce(id)
    {
      var completed := reduceMgr.IsTaskCompleted(id);
      if completed {
        return;
      }
      var ok := reduceMgr.CompleteTask(id);
    }

    method Done() returns (done: bool)
      ensures done <==> State().Done()
    {
      done := mapManager.AllCompleted();
      if !done {
        return false;
      }
      done := reduceMgr.AllCompleted();
    }
  }
}
