/** Runs of sends and receives, in any interleaving, and a receiver that waits. */
module PortTraffic {
  import opened Bytes
  import opened Options
  import opened PortChannels

  datatype Op = Send(ch: Channel, msg: Msg, join: bool) | Recv(ch: Channel, n: nat)

  function After(q: seq<Chunk>, op: Op): seq<Chunk> {
    match op
    case Send(ch, msg, join) => Sent(q, ch, msg, join)
    case Recv(ch, n) => Received(q, ch, n).1
  }

  function AfterAll(q: seq<Chunk>, ops: seq<Op>): seq<Chunk>
    decreases |ops|
  {
    if ops == [] then q else AfterAll(After(q, ops[0]), ops[1..])
  }

  /** What the receives on one channel return, one after another. */
  function Results(q: seq<Chunk>, ops: seq<Op>, ch: Channel): seq<Option<Msg>>
    decreases |ops|
  {
    if ops == [] then []
    else (if ops[0].Recv? && ops[0].ch == ch then [Received(q, ch, ops[0].n).0] else [])
         + Results(After(q, ops[0]), ops[1..], ch)
  }

  // ----- the same on a queue of messages -----

  function QueueAfter(ms: seq<Msg>, op: Op, ch: Channel): seq<Msg> {
    if op.ch != ch then ms
    else if op.Send? then ms + [op.msg]
    else if ms == [] then [] else ms[1..]
  }

  function QueueAfterAll(ms: seq<Msg>, ops: seq<Op>, ch: Channel): seq<Msg>
    decreases |ops|
  {
    if ops == [] then ms else QueueAfterAll(QueueAfter(ms, ops[0], ch), ops[1..], ch)
  }

  function QueueResults(ms: seq<Msg>, ops: seq<Op>, ch: Channel): seq<Option<Msg>>
    decreases |ops|
  {
    if ops == [] then []
    else (if ops[0].Recv? && ops[0].ch == ch then [if ms == [] then None else Some(ms[0])] else [])
         + QueueResults(QueueAfter(ms, ops[0], ch), ops[1..], ch)
  }

  /** The channel's receivers ask for the sizes that were sent, in order, and no message is empty.
      Nothing is asked of the other channels. */
  ghost predicate Replays(ms: seq<Msg>, ops: seq<Op>, ch: Channel)
    decreases |ops|
  {
    ops != [] ==>
      && (ops[0].ch == ch ==>
           match ops[0]
           case Send(_, msg, _) => msg != []
           case Recv(_, n) => n > 0 && (ms != [] ==> n == |ms[0]|))
      && Replays(QueueAfter(ms, ops[0], ch), ops[1..], ch)
  }

  lemma StepIsQueue(q: seq<Chunk>, ms: seq<Msg>, op: Op, ch: Channel)
    requires Holds(q, ch, ms) && Replays(ms, [op], ch)
    ensures Holds(After(q, op), ch, QueueAfter(ms, op, ch))
    ensures op.Recv? && op.ch == ch ==> Received(q, ch, op.n).0 == if ms == [] then None else Some(ms[0])
  {
    hide Holds, Sent, Received;
    match op {
      case Send(c, msg, join) => {
        if c == ch { SendAddsMessage(q, ch, msg, join, ms); } else { OthersKeepMessages(q, ch, c, msg, join, 0, ms); }
      }
      case Recv(c, n) => {
        if c != ch {
          OthersKeepMessages(q, ch, c, [], false, n, ms);
        } else if ms == [] {
          ReceiveFailsWhenEmpty(q, ch, n);
        } else {
          ReceiveGetsMessage(q, ch, ms);
        }
      }
    }
  }

  /** Every channel whose receivers replay its senders' sizes is a queue of messages, whatever the
      interleaving, the other channels' traffic and the room tests. */
  lemma {:induction false} ChannelIsQueue(q: seq<Chunk>, ms: seq<Msg>, ops: seq<Op>, ch: Channel)
    requires Holds(q, ch, ms) && Replays(ms, ops, ch)
    ensures Results(q, ops, ch) == QueueResults(ms, ops, ch)
    ensures Holds(AfterAll(q, ops), ch, QueueAfterAll(ms, ops, ch))
    decreases |ops|
  {
    hide Holds, After, QueueAfter, Received;
    if ops != [] {
      assert [ops[0]][1..] == [];
      assert Replays(ms, [ops[0]], ch);
      StepIsQueue(q, ms, ops[0], ch);
      ChannelIsQueue(After(q, ops[0]), QueueAfter(ms, ops[0], ch), ops[1..], ch);
    }
  }

  function SentOn(ops: seq<Op>, ch: Channel): seq<Msg> {
    if ops == [] then []
    else (if ops[0].Send? && ops[0].ch == ch then [ops[0].msg] else []) + SentOn(ops[1..], ch)
  }

  /** The messages that arrived, without the failed attempts. */
  function Arrived(rs: seq<Option<Msg>>): seq<Msg> {
    if rs == [] then [] else (if rs[0].Some? then [rs[0].value] else []) + Arrived(rs[1..])
  }

  /** What arrived and what is still pending is what was sent, in order. */
  lemma {:induction false} NothingLostOrReordered(ms: seq<Msg>, ops: seq<Op>, ch: Channel)
    ensures Arrived(QueueResults(ms, ops, ch)) + QueueAfterAll(ms, ops, ch) == ms + SentOn(ops, ch)
    decreases |ops|
  {
    if ops != [] {
      var next := QueueAfter(ms, ops[0], ch);
      NothingLostOrReordered(next, ops[1..], ch);
      var rest, left := QueueResults(next, ops[1..], ch), QueueAfterAll(next, ops[1..], ch);
      var r := QueueResults(ms, ops, ch);
      if ops[0].Recv? && ops[0].ch == ch {
        assert r[0] == (if ms == [] then None else Some(ms[0])) && r[1..] == rest;
        if ms == [] {
          assert Arrived(r) == [] + Arrived(rest) == Arrived(rest);
          assert SentOn(ops, ch) == [] + SentOn(ops[1..], ch) == SentOn(ops[1..], ch);
        } else {
          assert Arrived(r) == [ms[0]] + Arrived(rest);
          assert SentOn(ops, ch) == [] + SentOn(ops[1..], ch) == SentOn(ops[1..], ch);
          assert ms == [ms[0]] + ms[1..];
          assert [ms[0]] + (Arrived(rest) + left) == [ms[0]] + (ms[1..] + SentOn(ops[1..], ch));
          assert Arrived(r) + left == [ms[0]] + (Arrived(rest) + left);
        }
      } else {
        assert r == rest;
      }
    }
  }

  /** From a kernel without chunks on: on every channel whose receivers replay its senders' sizes each
      receive gets the next message, and none only if none is pending; so what arrived is what was sent,
      but for the messages still pending. */
  lemma FromEmpty(ops: seq<Op>, ch: Channel) returns (pending: seq<Msg>)
    requires Replays([], ops, ch)
    ensures Holds(AfterAll([], ops), ch, pending)
    ensures Results([], ops, ch) == QueueResults([], ops, ch)
    ensures Arrived(Results([], ops, ch)) + pending == SentOn(ops, ch)
  {
    hide Holds, AfterAll, Results, QueueResults, Arrived;
    pending := QueueAfterAll([], ops, ch);
    EmptyHoldsNothing(ch);
    ChannelIsQueue([], [], ops, ch);
    NothingLostOrReordered([], ops, ch);
    assert [] + SentOn(ops, ch) == SentOn(ops, ch);
  }

  // ----- a receiver among other traffic -----

  /** Operations that, as far as channel ch goes, only send, and nothing empty. */
  ghost predicate OnlySends(ops: seq<Op>, ch: Channel) {
    forall op :: op in ops && op.ch == ch ==> op.Send? && op.msg != []
  }

  /** The channel holds some of the messages ms, and the operations still to come send the rest. */
  ghost predicate Promised(q: seq<Chunk>, traffic: seq<Op>, ch: Channel, ms: seq<Msg>) {
    OnlySends(traffic, ch) && exists now :: Holds(q, ch, now) && now + SentOn(traffic, ch) == ms
  }

  lemma PromiseKept(q: seq<Chunk>, traffic: seq<Op>, ch: Channel, ms: seq<Msg>)
    requires Promised(q, traffic, ch, ms) && traffic != []
    ensures Promised(After(q, traffic[0]), traffic[1..], ch, ms)
  {
    hide Holds, After;
    var now :| Holds(q, ch, now) && now + SentOn(traffic, ch) == ms;
    var op := traffic[0];
    assert op in traffic;
    assert Replays(now, [op], ch) by { assert [op][1..] == []; }
    StepIsQueue(q, now, op, ch);
    assert QueueAfter(now, op, ch) + SentOn(traffic[1..], ch) == ms;
  }

  lemma PromiseNow(q: seq<Chunk>, traffic: seq<Op>, ch: Channel, ms: seq<Msg>)
    requires Promised(q, traffic, ch, ms) && ms != [] && ms[0] != []
    ensures var (r, q') := Received(q, ch, |ms[0]|);
            && (r.Some? ==> r == Some(ms[0]) && Promised(q', traffic, ch, ms[1..]))
            && (r.None? ==> q' == q && traffic != [])
  {
    hide Holds, Received;
    var now :| Holds(q, ch, now) && now + SentOn(traffic, ch) == ms;
    if now == [] {
      ReceiveFailsWhenEmpty(q, ch, |ms[0]|);
    } else {
      assert now[0] == ms[0];
      ReceiveGetsMessage(q, ch, now);
      assert now[1..] + SentOn(traffic, ch) == ms[1..];
    }
  }

  /** The chunks, and what everyone but the one receiver is going to do. */
  class World {
    var chunks: seq<Chunk>
    var traffic: seq<Op>

    constructor (chunks: seq<Chunk>, traffic: seq<Op>)
      ensures this.chunks == chunks && this.traffic == traffic
    {
      this.chunks, this.traffic := chunks, traffic;
    }

    ghost predicate Promises(ch: Channel, ms: seq<Msg>)
      reads this
    {
      Promised(chunks, traffic, ch, ms)
    }

    /** Any number of the others' operations happen. */
    method Elapse(atLeast: nat, ghost ch: Channel, ghost ms: seq<Msg>)
      requires Promises(ch, ms) && atLeast <= |traffic|
      modifies this
      ensures Promises(ch, ms) && |traffic| <= old(|traffic|) - atLeast
    {
      hide Promised, After;
      var k: nat :| atLeast <= k <= |traffic|;
      var i := 0;
      while i < k
        invariant i <= k && |traffic| == old(|traffic|) - i && Promises(ch, ms)
      {
        PromiseKept(chunks, traffic, ch, ms);
        chunks, traffic := After(chunks, traffic[0]), traffic[1..];
        i := i + 1;
      }
    }

    /** while (!receive(...)); */
    method Await(ch: Channel, n: nat, ghost ms: seq<Msg>) returns (m: Msg)
      requires Promises(ch, ms) && ms != [] && n == |ms[0]| && n > 0
      modifies this
      ensures m == ms[0] && Promises(ch, ms[1..])
    {
      hide Promised, Received;
      Elapse(0, ch, ms);
      var r: Option<Msg> := None;
      while r.None?
        invariant r.None? ==> Promises(ch, ms)
        invariant r.Some? ==> r.value == ms[0] && Promises(ch, ms[1..])
        decreases |traffic|, r.None?
      {
        PromiseNow(chunks, traffic, ch, ms);
        var (got, left) := Received(chunks, ch, n);
        r, chunks := got, left;
        if r.None? { Elapse(1, ch, ms); }
      }
      m := r.value;
    }
  }
}
