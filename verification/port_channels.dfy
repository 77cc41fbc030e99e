/** Ports as channels: what sending and receiving do to the chunks that all channels share. */
module PortChannels {
  import opened Bytes
  import opened Options

  type Msg = seq<Byte>

  datatype Channel = Channel(from: nat, to: nat, port: int)

  /** The bytes pending in one chunk of a channel. */
  datatype Chunk = Chunk(ch: Channel, data: seq<Byte>)

  /** Position after the last chunk of the channel, 0 if there is none. */
  function LastOf(q: seq<Chunk>, ch: Channel): (k: nat)
    ensures k <= |q| && (k > 0 ==> q[k - 1].ch == ch) && forall i :: k <= i < |q| ==> q[i].ch != ch
  {
    if q == [] then 0 else if q[|q| - 1].ch == ch then |q| else LastOf(q[..|q| - 1], ch)
  }

  /** send: the message joins the channel's last chunk, or it starts a new one at the end of the
      list.  Which of the two is up to the room test. */
  function Sent(q: seq<Chunk>, ch: Channel, msg: Msg, join: bool): seq<Chunk> {
    var k := LastOf(q, ch);
    if join && k > 0 then q[k - 1 := Chunk(ch, q[k - 1].data + msg)] else q + [Chunk(ch, msg)]
  }

  /** Position of the channel's first chunk that holds at least n bytes, or |q|. */
  function FirstHolding(q: seq<Chunk>, ch: Channel, n: nat): (k: nat)
    ensures k <= |q| && (k < |q| ==> q[k].ch == ch && |q[k].data| >= n)
    ensures forall i :: 0 <= i < k ==> q[i].ch != ch || |q[i].data| < n
  {
    if q == [] || (q[0].ch == ch && |q[0].data| >= n) then 0 else 1 + FirstHolding(q[1..], ch, n)
  }

  /** receive: n bytes from the front of that chunk. */
  function Received(q: seq<Chunk>, ch: Channel, n: nat): (Option<Msg>, seq<Chunk>) {
    var k := FirstHolding(q, ch, n);
    if k == |q| then (None, q)
    else (Some(q[k].data[..n]), q[k := Chunk(ch, q[k].data[n..])])
  }

  /** Position of the first chunk with bytes for this receiver and port, or |q|. */
  function FirstFor(q: seq<Chunk>, to: nat, port: int): (k: nat)
    ensures k <= |q| && (k < |q| ==> q[k].ch.to == to && q[k].ch.port == port && q[k].data != [])
    ensures forall i :: 0 <= i < k ==> q[i].ch.to != to || q[i].ch.port != port || q[i].data == []
  {
    if q == [] || (q[0].ch.to == to && q[0].ch.port == port && q[0].data != []) then 0
        else 1 + FirstFor(q[1..], to, port)
  }

  /** poll: the sender of the first bytes pending. */
  function Polled(q: seq<Chunk>, to: nat, port: int): Option<nat> {
    var k := FirstFor(q, to, port);
    if k == |q| then None else Some(q[k].ch.from)
  }

  // ----- bytes pending -----

  function Pending(q: seq<Chunk>, ch: Channel): seq<Byte> {
    if q == [] then [] else (if q[0].ch == ch then q[0].data else []) + Pending(q[1..], ch)
  }

  lemma {:induction false} PendingSplit(q: seq<Chunk>, k: nat, ch: Channel)
    requires k <= |q|
    ensures Pending(q, ch) == Pending(q[..k], ch) + Pending(q[k..], ch)
  {
    if k == 0 {
      assert q[..0] == [] && q[0..] == q;
    } else {
      PendingSplit(q[1..], k - 1, ch);
      assert q[..k][1..] == q[1..][..k - 1] && q[1..][k - 1..] == q[k..];
    }
  }

  lemma {:induction false} NothingPending(q: seq<Chunk>, ch: Channel)
    requires forall i :: 0 <= i < |q| ==> q[i].ch != ch || q[i].data == []
    ensures Pending(q, ch) == []
  {
    if q != [] { NothingPending(q[1..], ch); }
  }

  lemma OneChunk(q: seq<Chunk>, k: nat, c: Chunk, ch: Channel)
    requires k < |q|
    ensures Pending(q[k := c], ch)
            == Pending(q[..k], ch) + (if c.ch == ch then c.data else []) + Pending(q[k + 1..], ch)
  {
    var r := q[k := c];
    PendingSplit(r, k, ch);
    assert r[..k] == q[..k] && r[k..][0] == c && r[k..][1..] == q[k + 1..];
  }

  /** A message goes to the end of its own channel's bytes and to no other channel's. */
  lemma SendAppends(q: seq<Chunk>, ch: Channel, msg: Msg, join: bool, other: Channel)
    ensures Pending(Sent(q, ch, msg, join), ch) == Pending(q, ch) + msg
    ensures other != ch ==> Pending(Sent(q, ch, msg, join), other) == Pending(q, other)
  {
    hide LastOf;
    var k := LastOf(q, ch);
    if join && k > 0 {
      var c := Chunk(ch, q[k - 1].data + msg);
      assert q[k - 1 := q[k - 1]] == q;
      OneChunk(q, k - 1, c, ch);
      OneChunk(q, k - 1, q[k - 1], ch);
      OneChunk(q, k - 1, c, other);
      OneChunk(q, k - 1, q[k - 1], other);
      NothingPending(q[k..], ch);
    } else {
      var c := Chunk(ch, msg);
      PendingSplit(q + [c], |q|, ch);
      PendingSplit(q + [c], |q|, other);
      assert (q + [c])[..|q|] == q && (q + [c])[|q|..] == [c];
      assert Pending([c], ch) == msg + Pending([], ch) == msg;
      assert other != ch ==> Pending([c], other) == [] + Pending([], other);
    }
  }

  /** Receiving takes bytes from its own channel only. */
  lemma ReceiveSparesOthers(q: seq<Chunk>, ch: Channel, n: nat, other: Channel)
    requires other != ch
    ensures Pending(Received(q, ch, n).1, other) == Pending(q, other)
  {
    hide FirstHolding;
    var k := FirstHolding(q, ch, n);
    if k < |q| {
      assert q[k := q[k]] == q;
      OneChunk(q, k, Chunk(ch, q[k].data[n..]), other);
      OneChunk(q, k, q[k], other);
    }
  }

  /** The chunk holds bytes for this receiver and port. */
  predicate IsFor(c: Chunk, to: nat, port: int) {
    c.ch.to == to && c.ch.port == port && c.data != []
  }

  /** poll finds a sender exactly if one has bytes pending, and then the one of the first chunk that holds
      any for the receiver. */
  lemma PollFindsIff(q: seq<Chunk>, to: nat, port: int)
    ensures Polled(q, to, port).Some? <==> exists from :: Pending(q, Channel(from, to, port)) != []
    ensures Polled(q, to, port).Some? ==> Pending(q, Channel(Polled(q, to, port).value, to, port)) != []
    ensures forall i :: 0 <= i < |q| && IsFor(q[i], to, port) && (forall j :: 0 <= j < i ==> !IsFor(q[j], to, port)) ==>
              Polled(q, to, port) == Some(q[i].ch.from)
  {
    hide FirstFor;
    var k := FirstFor(q, to, port);
    if k < |q| {
      assert q[k := q[k]] == q;
      OneChunk(q, k, q[k], q[k].ch);
      assert q[k].ch == Channel(q[k].ch.from, to, port);
      assert |Pending(q, Channel(q[k].ch.from, to, port))| > 0;
    } else {
      forall from | Pending(q, Channel(from, to, port)) != []
        ensures false
      {
        NothingPending(q, Channel(from, to, port));
      }
    }
  }

  // ----- messages pending -----

  function Flat(ms: seq<Msg>): seq<Byte> {
    if ms == [] then [] else ms[0] + Flat(ms[1..])
  }

  lemma {:induction false} FlatConcat(ms: seq<Msg>, ns: seq<Msg>)
    ensures Flat(ms + ns) == Flat(ms) + Flat(ns)
  {
    if ms == [] {
      assert ms + ns == ns;
    } else {
      FlatConcat(ms[1..], ns);
      assert (ms + ns)[1..] == ms[1..] + ns;
    }
  }

  /** f cuts the bytes of the channel's chunks into messages, none of them empty.  The other
      chunks are not cut. */
  ghost predicate Cuts(q: seq<Chunk>, f: seq<seq<Msg>>, ch: Channel) {
    && |f| == |q|
    && forall i :: 0 <= i < |q| ==>
         if q[i].ch == ch then q[i].data == Flat(f[i]) && forall m :: m in f[i] ==> m != [] else f[i] == []
  }

  /** The messages in a cut, in order. */
  function All(f: seq<seq<Msg>>): seq<Msg> {
    if f == [] then [] else f[0] + All(f[1..])
  }

  lemma {:induction false} AllSplit(f: seq<seq<Msg>>, k: nat)
    requires k <= |f|
    ensures All(f) == All(f[..k]) + All(f[k..])
  {
    if k == 0 {
      assert f[..0] == [] && f[0..] == f;
    } else {
      AllSplit(f[1..], k - 1);
      assert f[..k][1..] == f[1..][..k - 1] && f[1..][k - 1..] == f[k..];
    }
  }

  lemma {:induction false} AllEmpty(f: seq<seq<Msg>>)
    requires forall i :: 0 <= i < |f| ==> f[i] == []
    ensures All(f) == []
  {
    if f != [] { AllEmpty(f[1..]); }
  }

  lemma OneCut(f: seq<seq<Msg>>, k: nat, ms: seq<Msg>)
    requires k < |f|
    ensures All(f[k := ms]) == All(f[..k]) + ms + All(f[k + 1..])
  {
    var r := f[k := ms];
    AllSplit(r, k);
    assert r[..k] == f[..k] && r[k..][0] == ms && r[k..][1..] == f[k + 1..];
  }

  /** The channel holds exactly the messages ms, uncut across chunks. */
  ghost predicate Holds(q: seq<Chunk>, ch: Channel, ms: seq<Msg>) {
    exists f :: Cuts(q, f, ch) && All(f) == ms
  }

  lemma EmptyHoldsNothing(ch: Channel)
    ensures Holds([], ch, [])
  {
    var f: seq<seq<Msg>> := [];
    assert Cuts([], f, ch);
  }

  lemma Recut(q: seq<Chunk>, f: seq<seq<Msg>>, ch: Channel, k: nat, data: seq<Byte>, ms: seq<Msg>)
    requires Cuts(q, f, ch) && k < |q| && q[k].ch == ch && data == Flat(ms) && forall m :: m in ms ==> m != []
    ensures Cuts(q[k := Chunk(ch, data)], f[k := ms], ch)
    ensures All(f[k := ms]) == All(f[..k]) + ms + All(f[k + 1..])
    ensures All(f) == All(f[..k]) + f[k] + All(f[k + 1..])
  {
    hide Flat, All;
    OneCut(f, k, ms);
    OneCut(f, k, f[k]);
    assert f[k := f[k]] == f;
  }

  lemma JoinAddsMessage(q: seq<Chunk>, f: seq<seq<Msg>>, ch: Channel, msg: Msg)
    requires Cuts(q, f, ch) && msg != [] && LastOf(q, ch) > 0
    ensures Holds(Sent(q, ch, msg, true), ch, All(f) + [msg])
  {
    hide LastOf, All, Flat;
    var k := LastOf(q, ch) - 1;
    FlatOne(f[k], msg);
    Recut(q, f, ch, k, q[k].data + msg, f[k] + [msg]);
    AllEmpty(f[k + 1..]);
    assert Cuts(Sent(q, ch, msg, true), f[k := f[k] + [msg]], ch);
  }

  lemma FlatOne(ms: seq<Msg>, msg: Msg)
    ensures Flat(ms + [msg]) == Flat(ms) + msg
  {
    FlatConcat(ms, [msg]);
    assert Flat([msg]) == msg;
  }

  lemma StartAddsMessage(q: seq<Chunk>, f: seq<seq<Msg>>, ch: Channel, msg: Msg)
    requires Cuts(q, f, ch) && msg != []
    ensures Holds(q + [Chunk(ch, msg)], ch, All(f) + [msg])
  {
    var g := f + [[msg]];
    AllSplit(g, |f|);
    assert g[..|f|] == f && g[|f|..] == [[msg]];
    assert All([[msg]]) == [msg] + All([]) == [msg];
    FlatOne([], msg);
    assert [] + [msg] == [msg];
    assert Cuts(q + [Chunk(ch, msg)], g, ch);
  }

  /** Sending on the channel adds the message at the end, whether or not it joins a chunk. */
  lemma SendAddsMessage(q: seq<Chunk>, ch: Channel, msg: Msg, join: bool, ms: seq<Msg>)
    requires Holds(q, ch, ms) && msg != []
    ensures Holds(Sent(q, ch, msg, join), ch, ms + [msg])
  {
    hide LastOf, All, Flat, Cuts;
    var f :| Cuts(q, f, ch) && All(f) == ms;
    if join && LastOf(q, ch) > 0 { JoinAddsMessage(q, f, ch, msg); } else { StartAddsMessage(q, f, ch, msg); }
  }

  /** Whatever is done on another channel leaves the messages of this one. */
  lemma OthersKeepMessages(q: seq<Chunk>, ch: Channel, other: Channel, msg: Msg, join: bool, n: nat, ms: seq<Msg>)
    requires Holds(q, ch, ms) && other != ch
    ensures Holds(Sent(q, other, msg, join), ch, ms) && Holds(Received(q, other, n).1, ch, ms)
  {
    hide LastOf, FirstHolding;
    var f :| Cuts(q, f, ch) && All(f) == ms;
    var r := Sent(q, other, msg, join);
    if |r| == |q| {
      assert Cuts(r, f, ch);
    } else {
      AllSplit(f + [[]], |f|);
      assert (f + [[]])[..|f|] == f;
      AllEmpty((f + [[]])[|f|..]);
      assert Cuts(r, f + [[]], ch);
    }
    assert Cuts(Received(q, other, n).1, f, ch);
  }

  lemma {:induction false} FirstMessage(f: seq<seq<Msg>>) returns (k: nat)
    requires All(f) != []
    ensures k < |f| && f[k] != [] && f[k][0] == All(f)[0] && forall i :: 0 <= i < k ==> f[i] == []
  {
    k := 0;
    if f[0] == [] {
      var j := FirstMessage(f[1..]);
      k := j + 1;
    }
  }

  /** A receiver that asks for the size of the first message gets that message, and it is gone. */
  lemma ReceiveGetsMessage(q: seq<Chunk>, ch: Channel, ms: seq<Msg>)
    requires Holds(q, ch, ms) && ms != []
    ensures ms[0] != [] && Received(q, ch, |ms[0]|).0 == Some(ms[0])
    ensures Holds(Received(q, ch, |ms[0]|).1, ch, ms[1..])
  {
    hide FirstHolding, All, Flat;
    var f :| Cuts(q, f, ch) && All(f) == ms;
    var k := FirstMessage(f);
    var m, rest := ms[0], f[k][1..];
    FlatFirst(f[k]);
    FlatNothing();
    assert q[k].ch == ch;
    assert f[k][0] in f[k];
    assert forall x :: x in rest ==> x in f[k];
    assert FirstHolding(q, ch, |m|) == k;
    Recut(q, f, ch, k, Flat(rest), rest);
    AllEmpty(f[..k]);
    assert (f[k] + All(f[k + 1..]))[1..] == rest + All(f[k + 1..]);
    assert q[k].data[|m|..] == Flat(rest);
  }

  lemma FlatFirst(ms: seq<Msg>)
    requires ms != []
    ensures Flat(ms) == ms[0] + Flat(ms[1..])
  {
  }

  lemma FlatNothing()
    ensures Flat([]) == []
  {
  }

  /** With no message pending, asking for any byte fails. */
  lemma ReceiveFailsWhenEmpty(q: seq<Chunk>, ch: Channel, n: nat)
    requires Holds(q, ch, []) && n > 0
    ensures Received(q, ch, n) == (None, q)
  {
    hide FirstHolding;
    var f :| Cuts(q, f, ch) && All(f) == [];
    forall i | 0 <= i < |q|
      ensures f[i] == []
    {
      AllSplit(f, i);
      assert f[i..][0] == f[i];
    }
    assert forall i :: 0 <= i < |q| && q[i].ch == ch ==> q[i].data == [];
  }
}
