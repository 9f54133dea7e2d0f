// The coordinator's bookkeeping as a value: which tasks are pending, assigned or completed,
// which intermediate files each reduce task has, and what each request does to that.

module MrTasks {

  // Nanoseconds.
  const TaskTimeout: nat := 10_000_000_000

  datatype Status = Pending | Assigned | Completed

  datatype Table<!K(==)> = Table(status: map<K, Status>, since: map<K, nat>) {

    predicate Waiting(k: K) {
      k in status && status[k] == Pending
    }

    predicate TimedOut(k: K, now: nat) {
      k in status && status[k] == Assigned && (k !in since || now > since[k] + TaskTimeout)
    }

    predicate IsCompleted(k: K) {
      k in status && status[k] == Completed
    }

    ghost predicate AllCompleted() {
      forall k :: k in status ==> status[k] == Completed
    }

    // A task the manager may hand out: a pending one, or, when there is none, a timed-out one.
    ghost predicate Pickable(k: K, now: nat) {
      Waiting(k) || ((forall j :: j in status ==> !Waiting(j)) && TimedOut(k, now))
    }

    function Assign(k: K, now: nat): Table<K> {
      if k !in status || status[k] == Completed then this
      else Table(status[k := Assigned], since[k := now])
    }

    function Complete(k: K): Table<K> {
      if k in status then this.(status := status[k := Completed]) else this
    }
  }

  // What a map execution reports: for each bucket it had pairs for, the file it wrote.
  datatype Report = Report(task: string, files: map<nat, nat>)

  datatype Answer = NoTask | MapTask(file: string) | ReduceTask(id: nat)

  datatype Coord = Coord(maps: Table<string>, reduces: Table<nat>, filenames: map<nat, seq<nat>>) {

    ghost predicate Done() {
      maps.AllCompleted() && reduces.AllCompleted()
    }

    // The task in this answer may be handed out at this time, and nothing else changes.
    ghost predicate Assigns(now: nat, answer: Answer, after: Coord) {
      match answer
      case MapTask(f) => maps.Pickable(f, now) && after == this.(maps := maps.Assign(f, now))
      case ReduceTask(r) =>
        && maps.AllCompleted() && reduces.Pickable(r, now)
        && after == this.(reduces := reduces.Assign(r, now))
      case NoTask =>
        && (forall f :: f in maps.status ==> !maps.Pickable(f, now))
        && (maps.AllCompleted() ==> forall r :: r in reduces.status ==> !reduces.Pickable(r, now))
        && after == this
    }

    // Each named bucket's list grows by one file; unknown buckets are ignored.
    function AddFiles(files: map<nat, nat>): map<nat, seq<nat>> {
      map r | r in filenames :: if r in files then filenames[r] + [files[r]] else filenames[r]
    }

    // Only the first report of a map task counts.
    function ReportMap(report: Report): Coord {
      if maps.IsCompleted(report.task) then this
      else this.(maps := maps.Complete(report.task), filenames := AddFiles(report.files))
    }

    function ReportReduce(id: nat): Coord {
      if reduces.IsCompleted(id) then this else this.(reduces := reduces.Complete(id))
    }
  }

  // The numbers 0, ..., n - 1.
  function Below(n: nat): (s: set<nat>)
    ensures forall r: nat :: r in s <==> r < n
  {
    if n == 0 then {} else Below(n - 1) + {n - 1}
  }

  ghost function InitTable<K>(ids: set<K>): Table<K> {
    Table(map k | k in ids :: Pending, map[])
  }

  ghost function InitCoord(files: set<string>, nReduce: nat): Coord {
    Coord(InitTable(files), InitTable(Below(nReduce)), map r | r in Below(nReduce) :: [])
  }
}
