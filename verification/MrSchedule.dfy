// The scheduler over time: completion is final, a task is handed out again only after its
// timeout, work is never lost, and what a finished run wrote stays as it is.

module MrSchedule {
  import opened Collections
  import opened MrSpec
  import opened MrTasks
  import opened MrWorker
  import opened MrSystem
  import MrRefinement

  ghost function Incomplete<K>(table: Table<K>): set<K> {
    set k | k in table.status && table.status[k] != Completed
  }

  lemma CompleteShrinks<K>(table: Table<K>, k: K)
    ensures Incomplete(table.Complete(k)) == Incomplete(table) - {k}
  {
  }

  lemma AssignShrinks(c: Coord, now: nat, answer: Answer, c': Coord)
    requires c.Assigns(now, answer, c')
    ensures Incomplete(c'.maps) == Incomplete(c.maps) && Incomplete(c'.reduces) == Incomplete(c.reduces)
  {
  }

  // Completed is absorbing: a report takes its task from the incomplete ones, and no other
  // step changes which they are.
  lemma IncompleteShrinks(j: Setup, s: State, e: Event, t: State)
    requires j.nReduce > 0 && Step(j, s, e, t)
    ensures Incomplete(t.coord.maps) == Incomplete(s.coord.maps) - (if e.DeliverMap? then {e.report.task} else {})
    ensures Incomplete(t.coord.reduces) == Incomplete(s.coord.reduces) - (if e.DeliverReduce? then {e.id} else {})
  {
    match e
    case Assign(answer) => AssignShrinks(s.coord, s.now, answer, t.coord);
    case DeliverMap(report) => CompleteShrinks(s.coord.maps, report.task);
    case DeliverReduce(id) => CompleteShrinks(s.coord.reduces, id);
    case _ =>
  }

  // No task is left at c' that was not left at c.
  ghost predicate NoMoreLeft(c: Coord, c': Coord) {
    Incomplete(c'.maps) <= Incomplete(c.maps) && Incomplete(c'.reduces) <= Incomplete(c.reduces)
  }

  lemma NoMoreLeftChains(c: Coord, c': Coord, c'': Coord)
    requires NoMoreLeft(c, c') && NoMoreLeft(c', c'')
    ensures NoMoreLeft(c, c'')
  {
  }

  lemma OneStepShrinks(j: Setup, states: seq<State>, events: seq<Event>, i: nat)
    requires Run(j, states, events) && i < |events|
    ensures NoMoreLeft(states[i].coord, states[i + 1].coord)
  {
    assert StepAt(j, states, events, i);
    IncompleteShrinks(j, states[i], events[i], states[i + 1]);
  }

  // Over a whole run, a task once completed is completed for good, so ever fewer are left.
  lemma {:induction false} CompletedForGood(j: Setup, states: seq<State>, events: seq<Event>, i: nat, k: nat)
    requires Run(j, states, events) && i <= k <= |events|
    ensures NoMoreLeft(states[i].coord, states[k].coord)
  {
    if i < k {
      CompletedForGood(j, states, events, i, k - 1);
      OneStepShrinks(j, states, events, k - 1);
      NoMoreLeftChains(states[i].coord, states[k - 1].coord, states[k].coord);
    }
  }

  // ----- Hand-outs of one task -----

  // A task handed out at this time is not pending, and its clock was not set back.
  ghost predicate HandedAt<K>(table: Table<K>, k: K, at: nat, now: nat) {
    k in table.status && table.status[k] != Pending && k in table.since && at <= table.since[k] <= now
  }

  ghost predicate TaskHandedAt(c: Coord, h: Handout, now: nat) {
    match h.task
    case NoTask => false
    case MapTask(f) => HandedAt(c.maps, f, h.at, now)
    case ReduceTask(r) => HandedAt(c.reduces, r, h.at, now)
  }

  // In the order of the hand-outs, those of one task are more than the timeout apart.
  ghost predicate Spaced(handouts: seq<Handout>) {
    forall i, k :: 0 <= i < k < |handouts| && handouts[i].task == handouts[k].task ==>
      handouts[k].at > handouts[i].at + TaskTimeout
  }

  ghost predicate SinceInPast<K>(table: Table<K>, now: nat) {
    forall k :: k in table.since ==> table.since[k] <= now
  }

  ghost predicate TimeInv(s: State) {
    && (forall i :: 0 <= i < |s.handouts| ==> TaskHandedAt(s.coord, s.handouts[i], s.now))
    && Spaced(s.handouts)
    && SinceInPast(s.coord.maps, s.now) && SinceInPast(s.coord.reduces, s.now)
  }

  // A task already handed out can only be picked after its timeout.
  lemma PickedLater(c: Coord, h: Handout, now: nat, answer: Answer, c': Coord)
    requires c.Assigns(now, answer, c') && TaskHandedAt(c, h, now)
    ensures h.task == answer ==> now > h.at + TaskTimeout
    ensures TaskHandedAt(c', h, now)
  {
  }

  lemma AssignTime(s: State, answer: Answer, c': Coord)
    requires TimeInv(s) && s.coord.Assigns(s.now, answer, c') && !answer.NoTask?
    ensures TimeInv(s.(coord := c', handouts := s.handouts + [Handout(answer, s.now)]))
  {
    var more := s.handouts + [Handout(answer, s.now)];
    forall i | 0 <= i < |s.handouts|
      ensures TaskHandedAt(c', more[i], s.now) && (more[i].task == answer ==> s.now > more[i].at + TaskTimeout)
    {
      PickedLater(s.coord, s.handouts[i], s.now, answer, c');
    }
    assert TaskHandedAt(c', Handout(answer, s.now), s.now);
  }

  lemma TimeStep(j: Setup, s: State, e: Event, t: State)
    requires Inv(j, s) && TimeInv(s) && Step(j, s, e, t)
    ensures TimeInv(t)
  {
    if e.Assign? {
      if !e.answer.NoTask? { AssignTime(s, e.answer, t.coord); }
    } else {
      forall i | 0 <= i < |t.handouts| ensures TaskHandedAt(t.coord, t.handouts[i], t.now) {
        assert TaskHandedAt(s.coord, s.handouts[i], s.now);
      }
    }
  }

  lemma {:induction false} TimeRun(j: Setup, states: seq<State>, events: seq<Event>, i: nat)
    requires Run(j, states, events) && i <= |events|
    ensures TimeInv(states[i])
  {
    if i > 0 {
      TimeRun(j, states, events, i - 1);
      RunInv(j, states, events, i - 1);
      assert StepAt(j, states, events, i - 1);
      TimeStep(j, states[i - 1], events[i - 1], states[i]);
    }
  }

  // Two hand-outs of one task are more than the timeout, ten seconds, apart.
  lemma HandoutsSpaced(j: Setup, states: seq<State>, events: seq<Event>, a: nat, b: nat)
    requires Run(j, states, events) && a < b < |events|
    requires events[a].Assign? && events[b].Assign? && events[a].answer == events[b].answer
    requires !events[a].answer.NoTask?
    ensures states[b].now - states[a].now > 10 * 1_000_000_000
  {
    TimeRun(j, states, events, b);
    HandoutRecorded(j, states, events, a, b);
    var i :| 0 <= i < |states[b].handouts| && states[b].handouts[i] == Handout(events[a].answer, states[a].now);
    assert StepAt(j, states, events, b);
    PickedLater(states[b].coord, states[b].handouts[i], states[b].now, events[b].answer, states[b + 1].coord);
  }

  lemma {:induction false} HandoutRecorded(j: Setup, states: seq<State>, events: seq<Event>, a: nat, b: nat)
    requires Run(j, states, events) && a < b <= |events| && events[a].Assign? && !events[a].answer.NoTask?
    ensures Handout(events[a].answer, states[a].now) in states[b].handouts
  {
    if a + 1 < b { HandoutRecorded(j, states, events, a, b - 1); }
    assert StepAt(j, states, events, b - 1);
  }

  // ----- Progress -----

  // A task that is left in the phase the run is in.
  ghost predicate IsLeft(c: Coord, answer: Answer) {
    match answer
    case NoTask => false
    case MapTask(f) => f in Incomplete(c.maps)
    case ReduceTask(r) => c.maps.AllCompleted() && r in Incomplete(c.reduces)
  }

  lemma SomePick<K>(table: Table<K>, now: nat, last: nat) returns (k: K)
    requires SinceInPast(table, last) && now > last + TaskTimeout && !table.AllCompleted()
    ensures table.Pickable(k, now)
  {
    k :| k in table.status && table.status[k] != Completed;
    if w :| w in table.status && table.Waiting(w) { k := w; }
  }

  // While anything is left, once the timeout has passed since the last step every request for
  // a task is answered with one that is left.
  lemma Progress(j: Setup, states: seq<State>, events: seq<Event>, i: nat, now: nat)
    requires Run(j, states, events) && i <= |events| && !states[i].coord.Done()
    requires now > states[i].now + TaskTimeout
    ensures exists answer, c' :: states[i].coord.Assigns(now, answer, c')
    ensures forall answer, c' :: states[i].coord.Assigns(now, answer, c') ==> IsLeft(states[i].coord, answer)
  {
    var s := states[i];
    TimeRun(j, states, events, i);
    if s.coord.maps.AllCompleted() {
      var r := SomePick(s.coord.reduces, now, s.now);
      assert s.coord.Assigns(now, ReduceTask(r), s.coord.(reduces := s.coord.reduces.Assign(r, now)));
    } else {
      var f := SomePick(s.coord.maps, now, s.now);
      assert s.coord.Assigns(now, MapTask(f), s.coord.(maps := s.coord.maps.Assign(f, now)));
    }
  }

  // ----- Done is final -----

  // An output file that is there stays, and a re-execution writes the same lines again.
  lemma OutputStays(j: Setup, s: State, e: Event, t: State, r: nat)
    requires Inv(j, s) && Step(j, s, e, t) && OrderBlind(j.app) && r in s.outs
    ensures r in t.outs && multiset(t.outs[r]) == multiset(s.outs[r])
  {
    if e.RunReduce? && e.job.id == r {
      assert OutRight(j, s, r);
      OutputUnique(s.outs[r], t.outs[r], multiset(ReadAll(s.temp, s.coord.filenames[r])), j.app);
    }
  }

  lemma DoneStep(j: Setup, s: State, e: Event, t: State)
    requires Inv(j, s) && Step(j, s, e, t) && s.coord.Done()
    ensures t.coord == s.coord
  {
    if e.DeliverMap? { DeliverMapInv(j, s, e.report, t); }
    if e.DeliverReduce? { assert s.coord.reduces.IsCompleted(e.id); }
  }

  lemma DoneOutputs(j: Setup, states: seq<State>, events: seq<Event>, i: nat)
    requires Run(j, states, events) && i <= |events| && states[i].coord.Done()
    ensures states[i].outs.Keys == Below(j.nReduce)
  {
    MrRefinement.DoneIsRight(j, states, events, i, Listing(FileSet(j)));
  }

  lemma DoneOutputsStay(j: Setup, s: State, e: Event, t: State)
    requires Inv(j, s) && Step(j, s, e, t) && OrderBlind(j.app)
    ensures forall r :: r in s.outs ==> r in t.outs && multiset(t.outs[r]) == multiset(s.outs[r])
  {
    forall r | r in s.outs ensures r in t.outs && multiset(t.outs[r]) == multiset(s.outs[r]) {
      OutputStays(j, s, e, t, r);
    }
  }

  // Once Done, the coordinator never changes, and no output file appears, vanishes or gets
  // other lines.
  lemma {:induction false} DoneIsFinal(j: Setup, states: seq<State>, events: seq<Event>, i: nat, k: nat)
    requires Run(j, states, events) && i <= k <= |events| && states[i].coord.Done() && OrderBlind(j.app)
    ensures states[k].coord == states[i].coord
    ensures states[k].outs.Keys == states[i].outs.Keys == Below(j.nReduce)
    ensures forall r :: r in states[i].outs ==> multiset(states[k].outs[r]) == multiset(states[i].outs[r])
  {
    DoneOutputs(j, states, events, i);
    if i < k {
      DoneIsFinal(j, states, events, i, k - 1);
      RunInv(j, states, events, k - 1);
      assert StepAt(j, states, events, k - 1);
      DoneStep(j, states[k - 1], events[k - 1], states[k]);
      DoneOutputs(j, states, events, k);
      DoneOutputsStay(j, states[k - 1], events[k - 1], states[k]);
    }
  }

  ghost function Listing(files: set<string>): (order: seq<string>)
    ensures Distinct(order) && forall f :: f in order <==> f in files
    decreases |files|
  {
    if files == {} then []
    else
      var f :| f in files;
      Listing(files - {f}) + [f]
  }
}
