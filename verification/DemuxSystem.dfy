// Concurrent callers, the reader, the server and a failing connection, as interleaved steps.

module DemuxSystem {
  import opened Demux

  // A call is named by its place in the order the tags were taken, its tag is that number
  // modulo 2^32. Number 0 is the message that opens the connection.
  function TagOf(c: nat): nat {
    c % TAGS
  }

  // Tagged: has a tag, not yet in the map. Sending: in the map, the write has not returned.
  // Waiting: at the receive from its channel, which the sender waits for too.
  datatype Caller = Tagged | Sending | Waiting | Returned(result: Result)

  // The call a request stands for is what its body says; the reader sees only the tag.
  datatype Request = Request(tag: nat, call: nat)
  datatype Response = Response(tag: nat, call: nat, rep: string, ok: bool)

  // Handing: sending on a channel; afterwards reading goes on, or draining the rest.
  // Ended: a read failed. Snapshot: closed, the outstanding tags not yet taken.
  datatype Next = Read | Drain(rest: set<nat>)
  datatype Reader =
    | Reading
    | Handing(call: nat, result: Result, next: Next)
    | Ended
    | Snapshot
    | Draining(left: set<nat>)
    | Stopped
    | Crashed

  datatype State = State(
    next: nat,
    table: Calls,
    callers: map<nat, Caller>,
    reader: Reader,
    written: set<nat>,
    requests: set<Request>,
    responses: set<Response>,
    answers: map<nat, Result>)

  datatype Event =
    | TakeTag
    | Put(c: nat)
    | Transmit(c: nat)
    | WriteReturns(c: nat)
    | Serve(request: Request, rep: string, ok: bool)
    | ReadResponse(response: Response)
    | ReadError
    | ReaderCloses
    | TakeOutstanding
    | DrainOne(tag: nat)
    | DrainEnds
    | Receive
    | UserCloses

  ghost predicate Outstanding(s: State, c: nat) {
    c in s.callers && !s.callers[c].Returned?
  }

  ghost predicate Init(s: State) {
    s == State(1, Calls(false, map[]), map[], Reading, {}, {}, {}, map[])
  }

  // remove, and the send that follows; the program exits when there is nothing to remove.
  ghost predicate Removes(s: State, tag: nat, result: Result, next: Next, t: State) {
    t == if tag in s.table.calls
      then s.(table := s.table.Remove(tag), reader := Handing(s.table.calls[tag], result, next))
      else s.(reader := Crashed)
  }

  // The next tag comes round again only after 2^32 others, all outstanding calls being younger.
  ghost predicate Fits(s: State) {
    forall c :: Outstanding(s, c) ==> s.next - c < TAGS
  }

  ghost predicate Step(s: State, e: Event, t: State) {
    match e
    case TakeTag => Fits(s) && t == s.(next := s.next + 1, callers := s.callers[s.next := Tagged])
    case Put(c) =>
      && c in s.callers && s.callers[c] == Tagged
      && t == s.(table := s.table.Put(TagOf(c), c),
                 callers := s.callers[c := if s.table.closed then Returned(Failed) else Sending])
    // Whether or not the write reports an error, the request may get out, once.
    case Transmit(c) =>
      && c in s.callers && s.callers[c] == Sending && c !in s.written
      && t == s.(written := s.written + {c}, requests := s.requests + {Request(TagOf(c), c)})
    case WriteReturns(c) =>
      && c in s.callers && s.callers[c] == Sending
      && t == s.(callers := s.callers[c := Waiting])
    // The server answers a request at most once, under the request's tag.
    case Serve(request, rep, ok) =>
      && request in s.requests
      && t == s.(requests := s.requests - {request},
                 responses := s.responses + {Response(request.tag, request.call, rep, ok)},
                 answers := s.answers[request.call := Reply(rep, ok)])
    case ReadResponse(response) =>
      && s.reader == Reading && response in s.responses
      && Removes(s.(responses := s.responses - {response}), response.tag, Reply(response.rep, response.ok), Read, t)
    case ReadError => s.reader == Reading && t == s.(reader := Ended)
    case ReaderCloses => s.reader == Ended && t == s.(table := s.table.Close(), reader := Snapshot)
    case TakeOutstanding => s.reader == Snapshot && t == s.(reader := Draining(s.table.calls.Keys))
    case DrainOne(tag) =>
      && s.reader.Draining? && tag in s.reader.left
      && Removes(s, tag, Failed, Drain(s.reader.left - {tag}), t)
    case DrainEnds => s.reader == Draining({}) && t == s.(reader := Stopped)
    case Receive =>
      && s.reader.Handing?
      && s.reader.call in s.callers && s.callers[s.reader.call] == Waiting
      && t == s.(callers := s.callers[s.reader.call := Returned(s.reader.result)],
                 reader := if s.reader.next.Read? then Reading else Draining(s.reader.next.rest))
    case UserCloses => t == s.(table := s.table.Close())
  }

  ghost predicate Steps(states: seq<State>, events: seq<Event>) {
    && |states| == |events| + 1
    && forall i :: 0 <= i < |events| ==> Step(states[i], events[i], states[i + 1])
  }

  ghost predicate Run(states: seq<State>, events: seq<Event>) {
    Steps(states, events) && Init(states[0])
  }

  // ----- The invariant -----

  ghost predicate InMap(s: State, c: nat) {
    TagOf(c) in s.table.calls && s.table.calls[TagOf(c)] == c
  }

  ghost predicate Blocked(s: State, c: nat) {
    c in s.callers && (s.callers[c] == Sending || s.callers[c] == Waiting)
  }

  ghost predicate Handed(s: State, c: nat) {
    s.reader.Handing? && s.reader.call == c
  }

  // Outstanding calls are recent enough to have different tags.
  ghost predicate TagsInv(s: State) {
    && (forall c :: c in s.callers ==> c < s.next)
    && (forall c :: Outstanding(s, c) ==> s.next - c <= TAGS)
  }

  // A blocked call is in the map or is being handed its result, never both.
  ghost predicate MapInv(s: State) {
    && (forall c :: Blocked(s, c) <==> InMap(s, c) || Handed(s, c))
    && (forall c :: Handed(s, c) ==> !InMap(s, c))
    && (forall t :: t in s.table.calls ==> InMap(s, s.table.calls[t]) && TagOf(s.table.calls[t]) == t)
  }

  ghost predicate Failing(s: State) {
    s.reader.Ended? || s.reader.Snapshot? || s.reader.Draining? || s.reader.Stopped?
    || (s.reader.Handing? && s.reader.next.Drain?)
  }

  // Requests and responses under way are of calls that were written, one for each, under the
  // call's tag.
  ghost predicate WireInv(s: State) {
    && (forall q :: q in s.requests ==> q.tag == TagOf(q.call) && q.call in s.written && q.call !in s.answers)
    && (forall p :: p in s.responses ==> p.tag == TagOf(p.call) && p.call in s.answers && s.answers[p.call] == Reply(p.rep, p.ok))
    && (forall p, q :: p in s.responses && q in s.responses && p.call == q.call ==> p == q)
    && (forall c :: c in s.written ==> c in s.callers && s.callers[c] != Tagged)
    && s.answers.Keys <= s.written
  }

  ghost predicate OnTheWay(s: State, c: nat) {
    (exists q :: q in s.requests && q.call == c) || (exists p :: p in s.responses && p.call == c)
  }

  // While the reader reads, what is under way finds its call in the map.
  ghost predicate PathInv(s: State) {
    Failing(s) || forall c :: OnTheWay(s, c) ==> InMap(s, c)
  }

  ghost predicate Own(s: State, c: nat, result: Result) {
    result == Failed || (c in s.answers && s.answers[c] == result)
  }

  ghost predicate OwnInv(s: State) {
    && (forall c :: c in s.callers && s.callers[c].Returned? ==> Own(s, c, s.callers[c].result))
    && (s.reader.Handing? ==> Own(s, s.reader.call, s.reader.result))
  }

  // What is left to drain is what is left in the map.
  ghost predicate DrainInv(s: State) {
    match s.reader
    case Snapshot => s.table.closed
    case Draining(left) => s.table.closed && left == s.table.calls.Keys
    case Handing(c, result, Drain(rest)) => s.table.closed && rest == s.table.calls.Keys
    case Handing(c, result, Read) => result != Failed
    case Stopped => s.table.closed && s.table.calls == map[]
    case Crashed => false
    case _ => true
  }

  ghost predicate Inv(s: State) {
    TagsInv(s) && MapInv(s) && WireInv(s) && PathInv(s) && OwnInv(s) && DrainInv(s)
  }

  lemma InitInv(s: State)
    requires Init(s)
    ensures Inv(s)
  {
  }

  lemma TagsDiffer(s: State, c: nat, d: nat)
    requires TagsInv(s) && Outstanding(s, c) && Outstanding(s, d) && TagOf(c) == TagOf(d)
    ensures c == d
  {
  }

  lemma TagsStep(s: State, e: Event, t: State)
    requires Inv(s) && Step(s, e, t)
    ensures TagsInv(t)
  {
    assert forall c :: Outstanding(t, c) ==> Outstanding(s, c) || (e.TakeTag? && c == s.next);
  }

  // A new entry overwrites none.
  lemma PutSpares(s: State, c: nat)
    requires Inv(s) && c in s.callers && s.callers[c] == Tagged
    ensures forall d :: InMap(s, d) ==> TagOf(d) != TagOf(c)
  {
    forall d | InMap(s, d) ensures TagOf(d) != TagOf(c) {
      assert Blocked(s, d) && !Blocked(s, c);
      if TagOf(d) == TagOf(c) { TagsDiffer(s, c, d); }
    }
  }

  lemma PutMap(s: State, c: nat, t: State)
    requires Inv(s) && Step(s, Put(c), t)
    ensures MapInv(t)
  {
    assert Outstanding(s, c) && !Blocked(s, c);
    PutSpares(s, c);
    forall d ensures Blocked(t, d) <==> InMap(t, d) || Handed(t, d) {
      assert Blocked(s, d) <==> InMap(s, d) || Handed(s, d);
    }
  }

  lemma RemoveMap(s: State, tag: nat, result: Result, next: Next, t: State)
    requires MapInv(s) && !s.reader.Handing? && tag in s.table.calls && Removes(s, tag, result, next, t)
    ensures MapInv(t)
  {
    var c := s.table.calls[tag];
    assert InMap(s, c) && TagOf(c) == tag;
    forall d ensures Blocked(t, d) <==> InMap(t, d) || Handed(t, d) {
      assert Blocked(s, d) <==> InMap(s, d) || Handed(s, d);
    }
  }

  lemma MapFrame(s: State, t: State)
    requires MapInv(s) && t.table.calls == s.table.calls
    requires forall c :: Blocked(t, c) && !Handed(t, c) <==> Blocked(s, c) && !Handed(s, c)
    requires forall c :: Handed(t, c) ==> Handed(s, c) && Blocked(t, c)
    ensures MapInv(t)
  {
    forall c ensures Blocked(t, c) <==> InMap(t, c) || Handed(t, c) {
      assert Blocked(s, c) <==> InMap(s, c) || Handed(s, c);
    }
  }

  // The reader never meets a tag that is not in the map.
  lemma ReadFinds(s: State, p: Response)
    requires Inv(s) && s.reader == Reading && p in s.responses
    ensures InMap(s, p.call) && p.tag == TagOf(p.call) && s.table.calls[p.tag] == p.call
  {
    assert OnTheWay(s, p.call);
  }

  lemma MapStep(s: State, e: Event, t: State)
    requires Inv(s) && Step(s, e, t)
    ensures MapInv(t)
  {
    match e
    case Put(c) => PutMap(s, c, t);
    case ReadResponse(p) =>
      ReadFinds(s, p);
      var mid := s.(responses := s.responses - {p});
      MapFrame(s, mid);
      RemoveMap(mid, p.tag, Reply(p.rep, p.ok), Read, t);
    case DrainOne(tag) => RemoveMap(s, tag, Failed, Drain(s.reader.left - {tag}), t);
    case _ => MapFrame(s, t);
  }

  lemma WireStep(s: State, e: Event, t: State)
    requires Inv(s) && Step(s, e, t)
    ensures WireInv(t)
  {
  }

  // A call whose request is not out yet is in the map, while the reader reads.
  lemma UnwrittenInMap(s: State, c: nat)
    requires Inv(s) && !Failing(s) && Blocked(s, c) && c !in s.written
    ensures InMap(s, c)
  {
    assert InMap(s, c) || Handed(s, c);
  }

  lemma PathStep(s: State, e: Event, t: State)
    requires Inv(s) && Step(s, e, t)
    ensures PathInv(t)
  {
    if !Failing(t) {
      if e.Put? { PutSpares(s, e.c); }
      if e.Transmit? { UnwrittenInMap(s, e.c); }
      if e.ReadResponse? { ReadFinds(s, e.response); }
      forall c | OnTheWay(t, c) ensures InMap(t, c) {
        StillOnTheWay(s, e, t, c);
      }
    }
  }

  lemma StillOnTheWay(s: State, e: Event, t: State, c: nat)
    requires Inv(s) && Step(s, e, t) && !Failing(t) && OnTheWay(t, c)
    ensures OnTheWay(s, c) || e == Transmit(c)
    ensures e.ReadResponse? ==> c != e.response.call
  {
    if q :| q in t.requests && q.call == c {
      assert q in s.requests || e == Transmit(c);
    } else {
      var p :| p in t.responses && p.call == c;
      assert p in s.responses || (e.Serve? && e.request in s.requests && e.request.call == c);
    }
  }

  lemma OwnStep(s: State, e: Event, t: State)
    requires Inv(s) && Step(s, e, t)
    ensures OwnInv(t)
  {
    if e.ReadResponse? { ReadFinds(s, e.response); }
  }

  lemma DrainStep(s: State, e: Event, t: State)
    requires Inv(s) && Step(s, e, t)
    ensures DrainInv(t)
  {
    if e.ReadResponse? { ReadFinds(s, e.response); }
  }

  lemma StepInv(s: State, e: Event, t: State)
    requires Inv(s) && Step(s, e, t)
    ensures Inv(t)
  {
    TagsStep(s, e, t);
    MapStep(s, e, t);
    WireStep(s, e, t);
    PathStep(s, e, t);
    OwnStep(s, e, t);
    DrainStep(s, e, t);
  }

  lemma {:induction false} RunInv(states: seq<State>, events: seq<Event>, i: nat)
    requires Run(states, events) && i <= |events|
    ensures Inv(states[i])
  {
    if i == 0 {
      InitInv(states[0]);
    } else {
      RunInv(states, events, i - 1);
      StepInv(states[i - 1], events[i - 1], states[i]);
    }
  }

  // ----- What every run keeps -----

  // The reader never meets a tag without a call, and what a call returns is a failure or the
  // server's answer to this very call.
  lemma OwnReplies(states: seq<State>, events: seq<Event>, i: nat, c: nat)
    requires Run(states, events) && i <= |events|
    ensures states[i].reader != Crashed
    ensures HasReturned(states[i], c) ==> Own(states[i], c, states[i].callers[c].result)
  {
    RunInv(states, events, i);
  }

  ghost predicate HasReturned(s: State, c: nat) {
    c in s.callers && s.callers[c].Returned?
  }

  lemma ReturnedStays(s: State, e: Event, t: State, c: nat)
    requires TagsInv(s) && Step(s, e, t) && HasReturned(s, c)
    ensures HasReturned(t, c) && t.callers[c] == s.callers[c]
  {
  }

  lemma RunTags(states: seq<State>, events: seq<Event>, i: nat)
    requires Run(states, events) && i < |events|
    ensures TagsInv(states[i]) && Step(states[i], events[i], states[i + 1])
  {
    RunInv(states, events, i);
  }

  // A call returns once.
  lemma {:induction false} ReturnsOnce(states: seq<State>, events: seq<Event>, i: nat, k: nat, c: nat)
    requires Run(states, events) && i <= k <= |events| && HasReturned(states[i], c)
    ensures HasReturned(states[k], c) && states[k].callers[c] == states[i].callers[c]
  {
    if i < k {
      ReturnsOnce(states, events, i, k - 1, c);
      RunTags(states, events, k - 1);
      ReturnedStays(states[k - 1], events[k - 1], states[k], c);
    }
  }

  // Once the reader has drained, the map is empty and stays empty, and no caller is blocked.
  lemma {:induction false} NobodyLeft(states: seq<State>, events: seq<Event>, i: nat, k: nat)
    requires Run(states, events) && i <= k <= |events| && states[i].reader == Stopped
    ensures states[k].reader == Stopped && states[k].table == Calls(true, map[])
    ensures forall c :: !Blocked(states[k], c)
  {
    if i < k {
      NobodyLeft(states, events, i, k - 1);
      assert Step(states[k - 1], events[k - 1], states[k]);
    }
    RunInv(states, events, k);
    assert forall c :: !InMap(states[k], c) && !Handed(states[k], c);
  }

  // ----- A healthy connection answers -----

  // Neither a read failed nor the user closed the connection.
  ghost predicate Healthy(events: seq<Event>, n: nat)
    requires n <= |events|
  {
    forall i :: 0 <= i < n ==> !events[i].ReadError? && !events[i].UserCloses?
  }

  ghost predicate NothingFailed(s: State) {
    && !s.table.closed && !Failing(s)
    && (forall c :: HasReturned(s, c) ==> s.callers[c].result != Failed)
    && (s.reader.Handing? ==> s.reader.result != Failed)
  }

  lemma HealthyStep(s: State, e: Event, t: State)
    requires Inv(s) && Step(s, e, t) && NothingFailed(s) && !e.ReadError? && !e.UserCloses?
    ensures NothingFailed(t)
  {
  }

  // As long as no read has failed and nobody has closed it, no call fails.
  lemma {:induction false} HealthyNeverFails(states: seq<State>, events: seq<Event>, i: nat)
    requires Run(states, events) && i <= |events| && Healthy(events, i)
    ensures NothingFailed(states[i])
  {
    if i > 0 {
      HealthyNeverFails(states, events, i - 1);
      RunInv(states, events, i - 1);
      assert Step(states[i - 1], events[i - 1], states[i]);
      HealthyStep(states[i - 1], events[i - 1], states[i]);
    }
  }

  // A new call gets into the map and out on the wire.
  lemma CallStarts(s: State) returns (states: seq<State>, events: seq<Event>)
    requires Inv(s) && s.reader == Reading && !s.table.closed && Fits(s)
    ensures Steps(states, events) && states[0] == s
    ensures var t, c := states[|events|], s.next;
      && c !in s.callers && t.reader == Reading && c in t.callers && t.callers[c] == Waiting
      && TagOf(c) in t.table.calls && t.table.calls[TagOf(c)] == c
      && Request(TagOf(c), c) in t.requests && c !in t.answers
  {
    var c := s.next;
    var s1 := s.(next := s.next + 1, callers := s.callers[c := Tagged]);
    var s2 := s1.(table := s1.table.Put(TagOf(c), c), callers := s1.callers[c := Sending]);
    var s3 := s2.(written := s2.written + {c}, requests := s2.requests + {Request(TagOf(c), c)});
    var s4 := s3.(callers := s3.callers[c := Waiting]);
    assert c !in s.written && c !in s.answers;
    states, events := [s, s1, s2, s3, s4], [TakeTag, Put(c), Transmit(c), WriteReturns(c)];
  }

  // A request that is out is served and its answer handed to its caller.
  lemma CallEnds(s: State, c: nat, rep: string, ok: bool) returns (states: seq<State>, events: seq<Event>)
    requires s.reader == Reading && c in s.callers && s.callers[c] == Waiting
    requires TagOf(c) in s.table.calls && s.table.calls[TagOf(c)] == c && Request(TagOf(c), c) in s.requests
    ensures Steps(states, events) && states[0] == s
    ensures var t := states[|events|];
      c in t.callers && t.callers[c] == Returned(Reply(rep, ok)) && t.reader == Reading && TagOf(c) !in t.table.calls
  {
    var q := Request(TagOf(c), c);
    var p := Response(TagOf(c), c, rep, ok);
    var s1 := s.(requests := s.requests - {q}, responses := s.responses + {p}, answers := s.answers[c := Reply(rep, ok)]);
    var s2 := s1.(responses := s1.responses - {p}, table := s1.table.Remove(TagOf(c)), reader := Handing(c, Reply(rep, ok), Read));
    var s3 := s2.(callers := s2.callers[c := Returned(Reply(rep, ok))], reader := Reading);
    states, events := [s, s1, s2, s3], [Serve(q, rep, ok), ReadResponse(p), Receive];
  }

  lemma StepsJoin(states: seq<State>, events: seq<Event>, states': seq<State>, events': seq<Event>)
    requires Steps(states, events) && Steps(states', events') && states[|events|] == states'[0]
    ensures Steps(states + states'[1..], events + events')
    ensures (states + states'[1..])[0] == states[0]
    ensures (states + states'[1..])[|events + events'|] == states'[|events'|]
  {
    var all, more := states + states'[1..], events + events';
    forall i | 0 <= i < |more| ensures Step(all[i], more[i], all[i + 1]) {
      if i < |events| {
        assert Step(states[i], events[i], states[i + 1]);
      } else {
        assert Step(states'[i - |events|], events'[i - |events|], states'[i + 1 - |events|]);
      }
    }
  }

  // On an open connection a new call that nothing goes wrong with returns the server's answer.
  lemma CallSucceeds(s: State, rep: string, ok: bool) returns (states: seq<State>, events: seq<Event>)
    requires Inv(s) && s.reader == Reading && !s.table.closed && Fits(s)
    ensures Steps(states, events) && states[0] == s && s.next !in s.callers
    ensures HasReturned(states[|events|], s.next) && states[|events|].callers[s.next].result == Reply(rep, ok)
  {
    var first, started := CallStarts(s);
    var second, ended := CallEnds(first[|started|], s.next, rep, ok);
    StepsJoin(first, started, second, ended);
    states, events := first + second[1..], started + ended;
  }

  // ----- The drain always gets on -----

  // How much of the drain is left, once the reader has closed the map.
  ghost function Rank(s: State): nat {
    match s.reader
    case Snapshot => 3 * |s.table.calls.Keys| + 2
    case Draining(left) => 3 * |left| + 1
    case Handing(c, result, Drain(rest)) =>
      3 * |rest| + 2 + (if c in s.callers && s.callers[c] == Sending then 1 else 0)
    case _ => 0
  }

  ghost predicate InDrain(s: State) {
    s.reader.Snapshot? || s.reader.Draining? || (s.reader.Handing? && s.reader.next.Drain?)
  }

  // The step the drain takes next: the reader's own, or the end of the write it waits for.
  ghost function DrainEvent(s: State): Event
    requires InDrain(s)
  {
    match s.reader
    case Snapshot => TakeOutstanding
    case Draining(left) => if left == {} then DrainEnds else var tag :| tag in left; DrainOne(tag)
    case Handing(c, _, _) => if c in s.callers && s.callers[c] == Sending then WriteReturns(c) else Receive
    case _ => DrainEnds
  }

  lemma DrainOneRank(s: State, tag: nat, t: State)
    requires Inv(s) && InDrain(s) && Step(s, DrainOne(tag), t)
    ensures InDrain(t) && Rank(t) < Rank(s)
  {
    var rest := s.reader.left - {tag};
    assert |rest| == |s.reader.left| - 1;
    assert t.reader == Handing(s.table.calls[tag], Failed, Drain(rest));
    assert Rank(t) <= 3 * |rest| + 3;
  }

  lemma ReaderRank(s: State, e: Event, t: State)
    requires Inv(s) && InDrain(s) && Step(s, e, t) && (e.TakeOutstanding? || e.DrainEnds? || e.Receive?)
    ensures InDrain(t) || t.reader == Stopped
    ensures Rank(t) < Rank(s)
  {
  }

  lemma CallerRank(s: State, e: Event, t: State)
    requires Inv(s) && InDrain(s) && Step(s, e, t) && t.reader == s.reader
    ensures InDrain(t) && Rank(t) <= Rank(s)
    ensures e == DrainEvent(s) ==> Rank(t) < Rank(s)
  {
    assert s.reader.Snapshot? ==> t.table.calls == s.table.calls;
    if s.reader.Handing? { assert Blocked(s, s.reader.call) by { assert Handed(s, s.reader.call); } }
  }

  // Whatever else happens, the drain does not fall back.
  lemma DrainKeepsOn(s: State, e: Event, t: State)
    requires Inv(s) && InDrain(s) && Step(s, e, t)
    ensures InDrain(t) || t.reader == Stopped
    ensures Rank(t) <= Rank(s)
    ensures e == DrainEvent(s) ==> Rank(t) < Rank(s)
  {
    if e.DrainOne? {
      DrainOneRank(s, e.tag, t);
    } else if e.TakeOutstanding? || e.DrainEnds? || e.Receive? {
      ReaderRank(s, e, t);
    } else {
      CallerRank(s, e, t);
    }
  }

  // Its next step is always possible.
  lemma DrainCanGoOn(s: State) returns (t: State)
    requires Inv(s) && InDrain(s)
    ensures Step(s, DrainEvent(s), t)
  {
    match DrainEvent(s)
    case TakeOutstanding => t := s.(reader := Draining(s.table.calls.Keys));
    case DrainEnds => t := s.(reader := Stopped);
    case DrainOne(tag) =>
      t := s.(table := s.table.Remove(tag), reader := Handing(s.table.calls[tag], Failed, Drain(s.reader.left - {tag})));
    case WriteReturns(c) => t := s.(callers := s.callers[c := Waiting]);
    case Receive =>
      assert Blocked(s, s.reader.call) by { assert Handed(s, s.reader.call); }
      t := s.(callers := s.callers[s.reader.call := Returned(s.reader.result)], reader := Draining(s.reader.next.rest));
    case _ => t := s;
  }

  lemma StepsCons(s: State, e: Event, states: seq<State>, events: seq<Event>)
    requires Steps(states, events) && Step(s, e, states[0])
    ensures Steps([s] + states, [e] + events)
  {
    var all, more := [s] + states, [e] + events;
    forall i | 0 <= i < |more| ensures Step(all[i], more[i], all[i + 1]) {
      if i > 0 { assert Step(states[i - 1], events[i - 1], states[i]); }
    }
  }

  lemma BlockedOrReturned(s: State, t: State, c: nat)
    requires Inv(s) && InDrain(s) && Step(s, DrainEvent(s), t)
    requires Blocked(s, c) || HasReturned(s, c)
    ensures Blocked(t, c) || HasReturned(t, c)
  {
  }

  // After a read error, the reader's and the callers' own steps lead to a state where the drain
  // is over and every caller that was blocked has returned.
  lemma {:induction false} DrainFinishes(s: State) returns (states: seq<State>, events: seq<Event>)
    requires Inv(s) && InDrain(s)
    ensures Steps(states, events) && states[0] == s && states[|events|].reader == Stopped
    ensures forall c :: Blocked(s, c) || HasReturned(s, c) ==> HasReturned(states[|events|], c)
    decreases Rank(s)
  {
    var e := DrainEvent(s);
    var t := DrainCanGoOn(s);
    DrainKeepsOn(s, e, t);
    StepInv(s, e, t);
    forall c | Blocked(s, c) || HasReturned(s, c) ensures Blocked(t, c) || HasReturned(t, c) {
      BlockedOrReturned(s, t, c);
    }
    if t.reader == Stopped {
      states, events := [s, t], [e];
      assert forall c :: !InMap(t, c) && !Handed(t, c);
    } else {
      var rest, more := DrainFinishes(t);
      StepsCons(s, e, rest, more);
      states, events := [s] + rest, [e] + more;
    }
  }
}
