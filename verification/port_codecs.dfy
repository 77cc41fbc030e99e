/** Lists of events and pixel buffers over a port. */
module PortCodecs {
  import opened Bytes
  import opened Options
  import opened PortChannels
  import opened PortTraffic

  const INT_BYTES := 4
  const INT_LIMIT := 0x8000_0000
  const EVENT_BYTES := 24

  /** An event as it lies in memory. */
  type Event = e: seq<Byte> | |e| == EVENT_BYTES witness Zeros(EVENT_BYTES)

  function IntMsg(n: nat): (m: Msg)
    ensures |m| == 4
  {
    ToLe(n, INT_BYTES)
  }

  lemma IntRoundTrip(n: nat)
    requires n < INT_LIMIT
    ensures FromLe(IntMsg(n)) == n
  {
    assert Pow256(4) == 0x1_0000_0000;
    LeRoundTrip(n, INT_BYTES);
  }

  // ----- events -----

  /** The messages of a list: its length, then the events. */
  function EventMsgs(list: seq<Event>): seq<Msg> {
    [IntMsg(|list|)] + EventsOnly(list)
  }

  function EventsOnly(list: seq<Event>): (ms: seq<Msg>)
    ensures |ms| == |list| && forall i :: 0 <= i < |ms| ==> ms[i] == list[i]
  {
    if list == [] then [] else [list[0]] + EventsOnly(list[1..])
  }

  /** Which of the two ways a message goes in is the room test's choice. */
  method Post(w: World, ch: Channel, msg: Msg, ghost ms: seq<Msg>)
    requires Holds(w.chunks, ch, ms) && msg != []
    modifies w`chunks
    ensures Holds(w.chunks, ch, ms + [msg])
    ensures forall other, ns :: other != ch && Holds(old(w.chunks), other, ns) ==> Holds(w.chunks, other, ns)
  {
    hide Holds, Sent;
    var join: bool := *;
    SendAddsMessage(w.chunks, ch, msg, join, ms);
    forall other, ns | other != ch && Holds(w.chunks, other, ns)
      ensures Holds(Sent(w.chunks, ch, msg, join), other, ns)
    {
      OthersKeepMessages(w.chunks, other, ch, msg, join, 0, ns);
    }
    w.chunks := Sent(w.chunks, ch, msg, join);
  }

  lemma OneMore<T>(s: seq<T>, i: nat)
    requires i < |s|
    ensures s[..i + 1] == s[..i] + [s[i]]
  {
  }

  lemma EventsFrom(list: seq<Event>, k: nat)
    requires k < |list|
    ensures EventsOnly(list[k..]) == [list[k]] + EventsOnly(list[k + 1..])
  {
    assert list[k..][1..] == list[k + 1..];
  }

  lemma NoMoreEvents(list: seq<Event>)
    ensures EventsOnly(list[|list|..]) == []
  {
  }

  /** send_events */
  method SendEvents(w: World, ch: Channel, list: seq<Event>, ghost ms: seq<Msg>)
    requires Holds(w.chunks, ch, ms) && |list| < INT_LIMIT
    modifies w`chunks
    ensures Holds(w.chunks, ch, ms + EventMsgs(list))
  {
    hide Holds, IntMsg, EventsOnly;
    var count := 0;
    while count < |list|
      invariant count <= |list|
    {
      count := count + 1;
    }
    Post(w, ch, IntMsg(count), ms);
    var i := 0;
    ghost var head, es := ms + [IntMsg(|list|)], EventsOnly(list);
    assert head + es[..0] == head;
    while i < |list|
      invariant i <= |list| && Holds(w.chunks, ch, head + es[..i])
    {
      Post(w, ch, list[i], head + es[..i]);
      OneMore(es, i);
      assert head + es[..i + 1] == head + es[..i] + [es[i]];
      i := i + 1;
    }
    assert es[..|list|] == es;
    assert head + es == ms + EventMsgs(list);
  }

  /** get_events, among any other traffic, when the channel's next messages are those of a list. */
  method GetEvents(w: World, ch: Channel, ghost list: seq<Event>, ghost rest: seq<Msg>) returns (events: seq<Event>)
    requires w.Promises(ch, EventMsgs(list) + rest) && |list| < INT_LIMIT
    modifies w
    ensures events == list && w.Promises(ch, rest)
  {
    hide Promised, IntMsg, FromLe, EventsOnly;
    ghost var all := EventMsgs(list) + rest;
    var c := w.Await(ch, INT_BYTES, all);
    IntRoundTrip(|list|);
    assert all[1..] == EventsOnly(list) + rest;
    var count := FromLe(c);
    events := [];
    assert list[0..] == list;
    while count != 0
      invariant |events| + count == |list| && events == list[..|events|]
      invariant w.Promises(ch, EventsOnly(list[|events|..]) + rest)
    {
      ghost var k := |events|;
      ghost var left := EventsOnly(list[k..]) + rest;
      EventsFrom(list, k);
      assert left == [list[k]] + (EventsOnly(list[k + 1..]) + rest);
      var e := w.Await(ch, EVENT_BYTES, left);
      events := events + [e];
      count := count - 1;
    }
    NoMoreEvents(list);
    assert [] + rest == rest;
  }

  // ----- pixel buffers -----

  datatype Pixel = Pixel(r: Byte, g: Byte, b: Byte)

  const PIXEL_BYTES := 3

  /** Columns of pixels, all of one height. */
  datatype PixelBuffer = PixelBuffer(columns: seq<seq<Pixel>>, width: nat, height: nat) {
    ghost predicate Valid() {
      && |columns| == width < INT_LIMIT && height < INT_LIMIT
      && forall x :: 0 <= x < width ==> |columns[x]| == height
    }
  }

  function ColumnMsg(c: seq<Pixel>): (m: Msg)
    ensures |m| == PIXEL_BYTES * |c|
  {
    if c == [] then [] else [c[0].r, c[0].g, c[0].b] + ColumnMsg(c[1..])
  }

  /** The pixels at an address, as a packed array. */
  function ColumnOf(m: Msg, height: nat): (c: seq<Pixel>)
    requires |m| == PIXEL_BYTES * height
    ensures |c| == height
  {
    if height == 0 then [] else [Pixel(m[0], m[1], m[2])] + ColumnOf(m[3..], height - 1)
  }

  /** A column is packed red, green, blue, and unpacks to its pixels. */
  lemma {:induction false} ColumnRoundTrip(c: seq<Pixel>)
    ensures ColumnOf(ColumnMsg(c), |c|) == c
    ensures forall y :: 0 <= y < |c| ==> ColumnMsg(c)[3 * y..3 * y + 3] == [c[y].r, c[y].g, c[y].b]
  {
    if c != [] {
      ColumnRoundTrip(c[1..]);
      assert ColumnMsg(c)[3..] == ColumnMsg(c[1..]);
      forall y | 0 < y < |c|
        ensures ColumnMsg(c)[3 * y..3 * y + 3] == [c[y].r, c[y].g, c[y].b]
      {
        assert ColumnMsg(c)[3 * y..3 * y + 3] == ColumnMsg(c[1..])[3 * (y - 1)..3 * (y - 1) + 3];
      }
    }
  }

  function Columns(cs: seq<seq<Pixel>>): (ms: seq<Msg>)
    ensures |ms| == |cs| && forall i :: 0 <= i < |ms| ==> ms[i] == ColumnMsg(cs[i])
  {
    if cs == [] then [] else [ColumnMsg(cs[0])] + Columns(cs[1..])
  }

  /** The messages of a buffer: width, height, then column after column. */
  function BufferMsgs(pb: PixelBuffer): seq<Msg> {
    [IntMsg(pb.width), IntMsg(pb.height)] + Columns(pb.columns)
  }

  /** create_buffer */
  method CreateBuffer(width: nat, height: nat, fill: Pixel) returns (pb: PixelBuffer)
    requires width < INT_LIMIT && height < INT_LIMIT
    ensures pb.Valid() && pb.width == width && pb.height == height
    ensures forall x, y :: 0 <= x < width && 0 <= y < height ==> pb.columns[x][y] == fill
  {
    var columns: seq<seq<Pixel>> := [];
    var x := 0;
    while x < width
      invariant x <= width && |columns| == x
      invariant forall i :: 0 <= i < x ==> |columns[i]| == height && forall y :: 0 <= y < height ==>
                columns[i][y] == fill
    {
      var column := [];
      var y := 0;
      while y < height
        invariant y <= height && |column| == y && forall j :: 0 <= j < y ==> column[j] == fill
      {
        column := column + [fill];
        y := y + 1;
      }
      columns := columns + [column];
      x := x + 1;
    }
    pb := PixelBuffer(columns, width, height);
  }

  /** send_buffer */
  method SendBuffer(w: World, ch: Channel, pb: PixelBuffer, ghost ms: seq<Msg>)
    requires Holds(w.chunks, ch, ms) && pb.Valid() && pb.height > 0
    modifies w`chunks
    ensures Holds(w.chunks, ch, ms + BufferMsgs(pb))
  {
    hide Holds, IntMsg, ColumnMsg;
    Post(w, ch, IntMsg(pb.width), ms);
    Post(w, ch, IntMsg(pb.height), ms + [IntMsg(pb.width)]);
    ghost var head, cols := ms + [IntMsg(pb.width)] + [IntMsg(pb.height)], Columns(pb.columns);
    assert head + cols[..0] == head;
    var i := 0;
    while i < pb.width
      invariant i <= pb.width && Holds(w.chunks, ch, head + cols[..i])
    {
      Post(w, ch, ColumnMsg(pb.columns[i]), head + cols[..i]);
      assert head + cols[..i + 1] == head + cols[..i] + [ColumnMsg(pb.columns[i])];
      i := i + 1;
    }
    assert cols[..pb.width] == cols;
    assert head + cols == ms + BufferMsgs(pb);
  }

  /** receive_buffer, among any other traffic. */
  method ReceiveBuffer(w: World, ch: Channel, ghost pb: PixelBuffer, ghost rest: seq<Msg>) returns (r: PixelBuffer)
    requires w.Promises(ch, BufferMsgs(pb) + rest) && pb.Valid() && pb.height > 0
    modifies w
    ensures r == pb && w.Promises(ch, rest)
  {
    hide Promised, IntMsg, FromLe, ColumnMsg, ColumnOf;
    ghost var all, cols := BufferMsgs(pb) + rest, Columns(pb.columns);
    var m := w.Await(ch, INT_BYTES, all);
    IntRoundTrip(pb.width);
    var width := FromLe(m);
    m := w.Await(ch, INT_BYTES, all[1..]);
    IntRoundTrip(pb.height);
    var height := FromLe(m);
    r := CreateBuffer(width, height, Pixel(0, 0, 0));
    assert all[1..][1..] == cols[0..] + rest;
    var i := 0;
    while i < r.width
      invariant i <= r.width && r.Valid() && r.width == pb.width && r.height == pb.height
      invariant r.columns[..i] == pb.columns[..i]
      invariant w.Promises(ch, cols[i..] + rest)
    {
      ghost var left := cols[i..] + rest;
      assert left[0] == ColumnMsg(pb.columns[i]);
      m := w.Await(ch, PIXEL_BYTES * r.height, left);
      ColumnRoundTrip(pb.columns[i]);
      assert left[1..] == cols[i + 1..] + rest;
      r := r.(columns := r.columns[i := ColumnOf(m, r.height)]);
      i := i + 1;
    }
    assert cols[pb.width..] + rest == rest;
    assert r.columns == r.columns[..pb.width] && pb.columns == pb.columns[..pb.width];
  }
}
