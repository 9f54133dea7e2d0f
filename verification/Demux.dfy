// The client side of the call multiplexer: the map of outstanding calls by tag, and the
// operations that fill it, empty it and drain it. A channel is named by a number.

module Demux {
  import opened Collections

  // Tags are unsigned 32-bit numbers and wrap around.
  const TAGS: nat := 0x1_0000_0000

  datatype Result = Reply(rep: string, ok: bool) | Failed

  datatype Calls = Calls(closed: bool, calls: map<nat, nat>) {
    // Refused once the connection is closed.
    function Put(tag: nat, ch: nat): Calls {
      if closed then this else this.(calls := calls[tag := ch])
    }

    function Remove(tag: nat): Calls {
      this.(calls := calls - {tag})
    }

    function Close(): Calls {
      this.(closed := true)
    }
  }

  // What was sent on which channel.
  datatype Delivery = Delivery(ch: nat, result: Result)

  class CallMap {
    var closed: bool
    var calls: map<nat, nat>

    ghost function State(): Calls
      reads this
    {
      Calls(closed, calls)
    }

    constructor ()
      ensures State() == Calls(false, map[])
    {
      closed, calls := false, map[];
    }

    method Close()
      modifies this
      ensures State() == old(State()).Close()
    {
      closed := true;
    }

    method Put(tag: nat, ch: nat) returns (ok: bool)
      modifies this
      ensures ok <==> !old(closed)
      ensures State() == old(State()).Put(tag, ch)
    {
      if closed {
        return false;
      }
      calls := calls[tag := ch];
      return true;
    }

    method Remove(tag: nat) returns (ch: Option<nat>)
      modifies this
      ensures ch == if tag in old(calls) then Some(old(calls)[tag]) else None
      ensures State() == old(State()).Remove(tag)
    {
      if tag in calls {
        ch := Some(calls[tag]);
        calls := calls - {tag};
      } else {
        assert calls - {tag} == calls;
        ch := None;
      }
    }

    // The tags in the map, in any order.
    method Outstanding() returns (ts: seq<nat>)
      ensures Distinct(ts) && forall t :: t in ts <==> t in calls
    {
      ts := [];
      var rest := calls.Keys;
      while rest != {}
        invariant rest <= calls.Keys && Distinct(ts)
        invariant forall t :: t in ts <==> t in calls && t !in rest
        decreases rest
      {
        ghost var m := Member(rest);
        assert m in rest;
        var t :| t in rest;
        ts := ts + [t];
        rest := rest - {t};
      }
    }
  }

  class DemuxClnt {
    const callmap: CallMap
    var nextTag: nat
    // Everything sent on the callers' channels so far.
    var sent: seq<Delivery>

    ghost predicate Valid()
      reads this
    {
      nextTag < TAGS
    }

    // The first tag is spent on the message that opens the connection.
    constructor ()
      ensures Valid() && fresh(callmap) && callmap.State() == Calls(false, map[]) && nextTag == 1 && sent == []
    {
      callmap := new CallMap();
      nextTag, sent := 0, [];
      new;
      var t := Tag();
    }

    method Tag() returns (t: nat)
      requires Valid()
      modifies `nextTag
      ensures Valid() && t == old(nextTag) && nextTag == (t + 1) % 4_294_967_296
    {
      t := nextTag;
      nextTag := if t + 1 == TAGS then 0 else t + 1;
    }

    // fatal stands for the program's exit when no call has this tag.
    method Answer(tag: nat, result: Result) returns (fatal: bool)
      modifies `sent, callmap
      ensures callmap.State() == old(callmap.State()).Remove(tag)
      ensures fatal <==> tag !in old(callmap.calls)
      ensures sent == old(sent) + if fatal then [] else [Delivery(old(callmap.calls)[tag], result)]
    {
      var ch := callmap.Remove(tag);
      if ch.None? {
        return true;
      }
      sent := sent + [Delivery(ch.value, result)];
      return false;
    }

    // What the reader does after a read error. Nothing is put any more, so this is not disturbed:
    // every outstanding call is sent one failure, nobody else is, and the map ends empty.
    method Drain() returns (fatal: bool)
      modifies `sent, callmap
      ensures !fatal && callmap.State() == Calls(true, map[])
      ensures exists ts :: Lists(ts, old(callmap.calls)) && sent == old(sent) + Failures(old(callmap.calls), ts)
    {
      ghost var was := callmap.calls;
      callmap.Close();
      var outstanding := callmap.Outstanding();
      fatal := false;
      for n := 0 to |outstanding|
        invariant !fatal && callmap.closed
        invariant callmap.calls == Without(was, outstanding[..n])
        invariant sent == old(sent) + Failures(was, outstanding[..n])
      {
        WithoutStep(was, outstanding, n);
        fatal := Answer(outstanding[n], Failed);
        if fatal {
          return;
        }
      }
      assert outstanding[..|outstanding|] == outstanding;
    }
  }

  ghost predicate Lists(ts: seq<nat>, calls: map<nat, nat>) {
    Distinct(ts) && forall t :: t in ts <==> t in calls
  }

  ghost function Without(calls: map<nat, nat>, ts: seq<nat>): map<nat, nat> {
    map t | t in calls && t !in ts :: calls[t]
  }

  ghost function Failures(calls: map<nat, nat>, ts: seq<nat>): seq<Delivery>
    requires forall t :: t in ts ==> t in calls
  {
    seq(|ts|, i requires 0 <= i < |ts| => Delivery(calls[ts[i]], Failed))
  }

  lemma WithoutStep(calls: map<nat, nat>, ts: seq<nat>, n: nat)
    requires n < |ts| && Lists(ts, calls)
    ensures ts[n] in Without(calls, ts[..n])
    ensures Without(calls, ts[..n + 1]) == Without(calls, ts[..n]) - {ts[n]}
    ensures Failures(calls, ts[..n + 1]) == Failures(calls, ts[..n]) + [Delivery(calls[ts[n]], Failed)]
  {
    assert ts[..n + 1] == ts[..n] + [ts[n]];
    assert ts[n] in ts;
    assert forall i :: 0 <= i < n ==> ts[..n][i] != ts[n];
  }

  // A drain of calls with a channel each sends every one of them exactly one failure.
  lemma OneFailureEach(calls: map<nat, nat>, ts: seq<nat>, ch: nat)
    requires Lists(ts, calls)
    requires forall t, u :: t in calls && u in calls && calls[t] == calls[u] ==> t == u
    ensures multiset(Failures(calls, ts))[Delivery(ch, Failed)] == if ch in calls.Values then 1 else 0
  {
    var fs := Failures(calls, ts);
    assert Distinct(fs);
    DistinctCount(fs, Delivery(ch, Failed));
    if ch in calls.Values {
      var t :| t in calls && calls[t] == ch;
      var i :| 0 <= i < |ts| && ts[i] == t;
      assert fs[i] == Delivery(ch, Failed);
    }
  }
}
