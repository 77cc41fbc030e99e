/** The ports in memory: chunks with an address, an offset and a size, filled and emptied in place. */
module Ports {
  import opened Bytes
  import opened Options
  import opened ByteStores
  import opened PageManager
  import opened PortChannels
  import PortCodecs
  import PortTraffic

  const PAGE := 0x1000

  datatype Slot = Slot(ch: Channel, addr: nat, off: nat, size: nat) {
    /** Where the next byte would go, counted from addr. */
    function End(): nat {
      off + size
    }
  }

  datatype PortState = PortState(mem: Store, list: seq<Slot>, free: seq<Region>)

  /** The bytes that the chunks hold. */
  function Held(mem: Store, list: seq<Slot>): (q: seq<Chunk>)
    ensures |q| == |list|
    ensures forall i :: 0 <= i < |q| ==>
              q[i] == Chunk(list[i].ch, Read(mem, list[i].addr + list[i].off, list[i].size))
  {
    if list == [] then []
    else [Chunk(list[0].ch, Read(mem, list[0].addr + list[0].off, list[0].size))] + Held(mem, list[1..])
  }

  /** The room test of send, as it is: the remainder is taken the wrong way round. */
  predicate RoomTest(end: nat, size: nat)
    requires end > 0
  {
    PAGE - PAGE % end >= size
  }

  function LastSlot(list: seq<Slot>, ch: Channel): (k: nat)
    ensures k <= |list| && (k > 0 ==> list[k - 1].ch == ch) && forall i :: k <= i < |list| ==> list[i].ch != ch
  {
    if list == [] then 0 else if list[|list| - 1].ch == ch then |list| else LastSlot(list[..|list| - 1], ch)
  }

  predicate Joining(list: seq<Slot>, ch: Channel, size: nat) {
    var k := LastSlot(list, ch);
    k > 0 && list[k - 1].End() > 0 && RoomTest(list[k - 1].End(), size)
  }

  /** send divides by the end of the channel's last chunk. */
  predicate Faults(list: seq<Slot>, ch: Channel) {
    var k := LastSlot(list, ch);
    k > 0 && list[k - 1].End() == 0
  }

  function Posted(s: PortState, ch: Channel, msg: Msg): PortState {
    var k := LastSlot(s.list, ch);
    if Joining(s.list, ch, |msg|) then
      var l := s.list[k - 1];
      PortState(Put(s.mem, l.addr + l.End(), msg), s.list[k - 1 := l.(size := l.size + |msg|)], s.free)
    else
      var (addr, rest) := Allocated(s.free, UnitsFor(|msg|));
      PortState(Put(s.mem, addr, msg), s.list + [Slot(ch, addr, 0, |msg|)], rest)
  }

  function FirstSlot(list: seq<Slot>, ch: Channel, n: nat): (k: nat)
    ensures k <= |list| && (k < |list| ==> list[k].ch == ch && list[k].size >= n)
    ensures forall i :: 0 <= i < k ==> list[i].ch != ch || list[i].size < n
  {
    if list == [] || (list[0].ch == ch && list[0].size >= n) then 0 else 1 + FirstSlot(list[1..], ch, n)
  }

  /** The chunk after n bytes have been taken, and the bytes given to free_pages: past a page the
      offset is reduced but the address stays, and the count of pages is taken for a count of bytes. */
  function Drained(l: Slot, n: nat): Slot
    requires n <= l.size
  {
    Slot(l.ch, l.addr, if l.off + n >= PAGE then (l.off + n) % PAGE else l.off + n, l.size - n)
  }

  function Taken(s: PortState, ch: Channel, n: nat): (Option<Msg>, PortState) {
    var k := FirstSlot(s.list, ch, n);
    if k == |s.list| then (None, s)
    else
      var l := s.list[k];
      (Some(Read(s.mem, l.addr + l.off, n)),
       PortState(s.mem, s.list[k := Drained(l, n)],
             if l.off + n >= PAGE then Freed(s.free, l.addr, (l.off + n) / PAGE) else s.free))
  }

  class PortTable {
    var mem: Store
    var list: seq<Slot>
    var locked: bool
    const pages: FreeList

    constructor (pages: FreeList)
      ensures this.pages == pages && mem == map[] && list == [] && !locked
    {
      this.pages, mem, list, locked := pages, map[], [], false;
    }

    ghost function S(): PortState
      reads this, pages, pages.chain
    {
      PortState(mem, list, pages.Regions())
    }

    /** The search loop of send. */
    method FindLast(ch: Channel) returns (l: nat)
      ensures l == LastSlot(list, ch)
    {
      l := 0;
      var i := 0;
      while i < |list|
        invariant i <= |list| && l == LastSlot(list[..i], ch)
      {
        assert list[..i + 1][..i] == list[..i];
        if list[i].ch.port == ch.port && list[i].ch.to == ch.to && list[i].ch.from == ch.from { l := i + 1; }
        i := i + 1;
      }
      assert list[..|list|] == list;
    }

    /** The search loop of receive. */
    method FindFirst(ch: Channel, size: nat) returns (i: nat)
      ensures i == FirstSlot(list, ch, size)
    {
      i := 0;
      while i < |list|
        invariant i <= |list| && FirstSlot(list, ch, size) == i + FirstSlot(list[i..], ch, size)
      {
        assert list[i..][1..] == list[i + 1..] && list[i..][0] == list[i];
        var d := list[i];
        if d.ch.port == ch.port && d.ch.to == ch.to && d.ch.from == ch.from && d.size >= size { return; }
        i := i + 1;
      }
    }

    /** send, from the running process (or nothing if there is none).  True is the divide error. */
    method Send(current: Option<nat>, to: nat, port: int, buf: Msg) returns (fault: bool)
      requires pages.Valid() && !locked
      modifies this, pages, pages.repr
      ensures pages.Valid() && pages.repr == old(pages.repr)
      ensures current.None? ==> !fault && S() == old(S()) && !locked
      ensures current.Some? ==>
                var ch := Channel(current.value, to, port);
                && (fault <==> Faults(old(list), ch))
                && (!fault ==> S() == Posted(old(S()), ch, buf) && !locked)
    {
      hide FreeList.Regions, FreeList.Valid, Allocated, Put, RoomTest, LastSlot;
      fault := false;
      if current.None? { return; }
      var ch := Channel(current.value, to, port);
      locked := true;
      var l := FindLast(ch);
      if l > 0 {
        var d := list[l - 1];
        var n := d.size + d.off;
        if n == 0 { return true; }
        if RoomTest(n, |buf|) {
          mem := Put(mem, d.addr + n, buf);
          list := list[l - 1 := d.(size := d.size + |buf|)];
          locked := false;
          return;
        }
      }
      var n := |buf| / PAGE;
      if |buf| % PAGE != 0 { n := n + 1; }
      var addr := pages.AllocPages(n);
      list := list + [Slot(ch, addr, 0, |buf|)];
      mem := Put(mem, addr, buf);
      locked := false;
    }

    /** poll, for the running process. */
    method Poll(current: Option<nat>, port: int) returns (from: Option<nat>)
      ensures from == match current case None => None case Some(to) => Polled(Held(mem, list), to, port)
    {
      hide Read;
      if current.None? { return None; }
      ghost var q := Held(mem, list);
      var i := 0;
      while i < |list|
        invariant i <= |list| && FirstFor(q, current.value, port) == i + FirstFor(q[i..], current.value, port)
      {
        assert q[i..][1..] == q[i + 1..] && q[i..][0] == q[i];
        if list[i].ch.port == port && list[i].ch.to == current.value && list[i].size != 0 {
          return Some(list[i].ch.from);
        }
        i := i + 1;
      }
      from := None;
    }

    /** Take n bytes from chunk i. */
    method Drain(i: nat, n: nat)
      requires pages.Valid() && i < |list| && n <= list[i].size
      modifies this`list, pages, pages.repr
      ensures pages.Valid() && fresh(pages.repr - old(pages.repr))
      ensures list == old(list)[i := Drained(old(list)[i], n)]
      ensures var off := old(list)[i].off + n;
              pages.Regions() == if off >= PAGE then Freed(old(pages.Regions()), old(list)[i].addr, off / PAGE)
                                 else old(pages.Regions())
    {
      hide FreeList.Regions, FreeList.Valid, Freed;
      var d := list[i].(size := list[i].size - n, off := list[i].off + n);
      if d.off >= PAGE {
        pages.FreePages(d.addr, d.off / PAGE);
        d := d.(off := d.off % PAGE);
      }
      list := list[i := d];
    }

    /** receive, for the running process. */
    method Receive(current: Option<nat>, from: nat, port: int, size: nat) returns (buf: Option<Msg>)
      requires pages.Valid() && !locked
      modifies this, pages, pages.repr
      ensures pages.Valid() && fresh(pages.repr - old(pages.repr)) && !locked
      ensures match current
              case None => buf == None && S() == old(S())
              case Some(to) => (buf, S()) == Taken(old(S()), Channel(from, to, port), size)
    {
      hide FreeList.Regions, FreeList.Valid, Read, Freed, Drained, FirstSlot;
      if current.None? { return None; }
      var ch := Channel(from, current.value, port);
      locked := true;
      var i := FindFirst(ch, size);
      buf := None;
      if i < |list| {
        buf := Some(Read(mem, list[i].addr + list[i].off, size));
        Drain(i, size);
      }
      locked := false;
    }
  }

  // ----- when this is a channel -----

  lemma LastAgrees(mem: Store, list: seq<Slot>, ch: Channel)
    ensures LastSlot(list, ch) == LastOf(Held(mem, list), ch)
  {
    hide Read, Held, LastSlot, LastOf;
    var q, a, b := Held(mem, list), LastSlot(list, ch), LastOf(Held(mem, list), ch);
    assert a > 0 ==> q[a - 1].ch == ch;
    assert b > 0 ==> list[b - 1].ch == ch;
  }

  lemma FirstAgrees(mem: Store, list: seq<Slot>, ch: Channel, n: nat)
    ensures FirstSlot(list, ch, n) == FirstHolding(Held(mem, list), ch, n)
  {
    hide Read, Held, FirstSlot, FirstHolding;
    var q, a, b := Held(mem, list), FirstSlot(list, ch, n), FirstHolding(Held(mem, list), ch, n);
    assert a < |q| ==> q[a].ch == ch && |q[a].data| >= n;
    assert b < |q| ==> list[b].ch == ch && list[b].size >= n;
  }

  // ----- messages that share a page -----

  /** A message that fits behind its channel's last chunk within a page goes there: no chunk and no page
      is added. */
  lemma FittingJoins(s: PortState, ch: Channel, msg: Msg)
    requires var k := LastSlot(s.list, ch);
             k > 0 && 0 < s.list[k - 1].End() && s.list[k - 1].End() + |msg| <= 0x1000
    ensures var k, t := LastSlot(s.list, ch), Posted(s, ch, msg);
            && t.list == s.list[k - 1 := s.list[k - 1].(size := s.list[k - 1].size + |msg|)] && t.free == s.free
            && t.mem == Put(s.mem, s.list[k - 1].addr + s.list[k - 1].End(), msg)
            && LastSlot(t.list, ch) == k && !Faults(s.list, ch)
  {
    hide LastSlot, Put;
    var k := LastSlot(s.list, ch);
    assert Joining(s.list, ch, |msg|);
    SameLast(s.list, Posted(s, ch, msg).list, ch);
  }

  function Posts(ch: Channel, msgs: seq<Msg>): seq<Call> {
    if msgs == [] then [] else [Post(ch, msgs[0])] + Posts(ch, msgs[1..])
  }

  function Total(msgs: seq<Msg>): nat {
    if msgs == [] then 0 else |msgs[0]| + Total(msgs[1..])
  }

  lemma {:induction false} FittingAllJoin(s: PortState, ch: Channel, msgs: seq<Msg>)
    requires var k := LastSlot(s.list, ch);
             k > 0 && 0 < s.list[k - 1].End() && s.list[k - 1].End() + Total(msgs) <= 0x1000
    ensures var k, t := LastSlot(s.list, ch), CalledAll(s, Posts(ch, msgs));
            t.list == s.list[k - 1 := s.list[k - 1].(size := s.list[k - 1].size + Total(msgs))] && t.free == s.free
    decreases |msgs|
  {
    hide LastSlot, Posted, Joining;
    if msgs != [] {
      FittingJoins(s, ch, msgs[0]);
      FittingAllJoin(Posted(s, ch, msgs[0]), ch, msgs[1..]);
      assert Posts(ch, msgs)[1..] == Posts(ch, msgs[1..]);
    }
  }

  /** What send_events sends to a channel without a chunk takes one chunk and one page in all, as long as
      count and events fit a page. */
  lemma EventsTakeOnePage(s: PortState, ch: Channel, list: seq<PortCodecs.Event>)
    requires LastSlot(s.list, ch) == 0 && 4 + 24 * |list| <= 0x1000
    ensures var (addr, rest) := Allocated(s.free, 1);
            var t := CalledAll(s, Posts(ch, PortCodecs.EventMsgs(list)));
            t.list == s.list + [Slot(ch, addr, 0, 4 + 24 * |list|)] && t.free == rest
  {
    hide LastSlot, Allocated, PortCodecs.EventsOnly, PortCodecs.IntMsg;
    var msgs, es := PortCodecs.EventMsgs(list), PortCodecs.EventsOnly(list);
    var t := Posted(s, ch, msgs[0]);
    var (addr, rest) := Allocated(s.free, 1);
    assert t.list == s.list + [Slot(ch, addr, 0, 4)] && t.free == rest;
    LastIsNew(s.list, Slot(ch, addr, 0, 4));
    EventBytes(list);
    assert msgs[1..] == es;
    FittingAllJoin(t, ch, es);
    assert Posts(ch, msgs)[1..] == Posts(ch, es);
  }

  lemma LastIsNew(list: seq<Slot>, l: Slot)
    ensures LastSlot(list + [l], l.ch) == |list| + 1
  {
  }

  lemma {:induction false} EventBytes(list: seq<PortCodecs.Event>)
    ensures Total(PortCodecs.EventsOnly(list)) == 24 * |list|
    decreases |list|
  {
    if list != [] {
      EventBytes(list[1..]);
      assert PortCodecs.EventsOnly(list)[1..] == PortCodecs.EventsOnly(list[1..]);
    }
  }

  lemma HeldUpdated(mem: Store, list: seq<Slot>, k: nat, d: Slot)
    requires k < |list|
    ensures Held(mem, list[k := d]) == Held(mem, list)[k := Chunk(d.ch, Read(mem, d.addr + d.off, d.size))]
  {
    hide Read, Held;
  }

  /** The bytes reserved for each chunk. */
  function Rooms(list: seq<Slot>, caps: seq<nat>): (rs: seq<Region>)
    requires |caps| == |list|
    ensures |rs| == |list|
    ensures forall i :: 0 <= i < |rs| ==> rs[i] == Region(list[i].addr, caps[i], USABLE)
  {
    if list == [] then [] else [Region(list[0].addr, caps[0], USABLE)] + Rooms(list[1..], caps[1..])
  }

  /** Each chunk stays within the bytes reserved for it, and these are neither free nor shared. */
  ghost predicate Laid(s: PortState, caps: seq<nat>) {
    && |caps| == |s.list|
    && (forall i :: 0 <= i < |caps| ==> s.list[i].End() <= caps[i])
    && Exclusive(PageManager.State(s.free, Rooms(s.list, caps)))
  }

  /** The message fits where send puts it. */
  ghost predicate Roomy(s: PortState, caps: seq<nat>, ch: Channel, n: nat)
    requires |caps| == |s.list|
  {
    if Joining(s.list, ch, n) then s.list[LastSlot(s.list, ch) - 1].End() + n <= caps[LastSlot(s.list, ch) - 1]
    else UnitsFor(n) < 0x10_0000 && FirstFit(s.free, RequestBytes(UnitsFor(n))) < |s.free|
  }

  lemma ReadExtended(m: Store, at: nat, n: nat, msg: Msg)
    ensures Read(Put(m, at + n, msg), at, n + |msg|) == Read(m, at, n) + msg
  {
    hide Read, Put, ByteAt;
    var m' := Put(m, at + n, msg);
    var l, r := Read(m', at, n + |msg|), Read(m, at, n) + msg;
    forall i: nat | i < n + |msg|
      ensures l[i] == r[i]
    {
      assert l[i] == ByteAt(m', at + i);
    }
  }

  lemma TwoParts(s: seq<Byte>, n: nat)
    requires n <= |s|
    ensures s == s[0..0 + n] + s[n..n + (|s| - n)]
  {
  }

  lemma JoinHeld(s: PortState, ch: Channel, msg: Msg)
    requires Joining(s.list, ch, |msg|)
    requires var l := s.list[LastSlot(s.list, ch) - 1];
             forall i :: 0 <= i < |s.list| && i != LastSlot(s.list, ch) - 1 ==>
               ClearOf(s.list[i], l.addr + l.End(), |msg|)
    ensures Held(Posted(s, ch, msg).mem, Posted(s, ch, msg).list) == Sent(Held(s.mem, s.list), ch, msg, true)
  {
    hide Read, Put, Held, LastSlot, LastOf, RoomTest;
    LastAgrees(s.mem, s.list, ch);
    var k := LastSlot(s.list, ch) - 1;
    var l := s.list[k];
    var p, q := Posted(s, ch, msg), Held(s.mem, s.list);
    ReadExtended(s.mem, l.addr + l.off, l.size, msg);
    forall i | 0 <= i < |s.list| && i != k
      ensures Held(p.mem, p.list)[i] == q[i]
    {
      var o := s.list[i];
      assert ClearOf(o, l.addr + l.End(), |msg|);
      PutElsewhere(s.mem, l.addr + l.End(), msg, o.addr + o.off, o.size);
    }
  }

  /** The bytes at..at+n-1 are none of those that the chunk holds. */
  predicate ClearOf(o: Slot, at: nat, n: nat) {
    o.size == 0 || n == 0 || o.addr + o.End() <= at || at + n <= o.addr + o.off
  }

  lemma RoomsClear(s: PortState, caps: seq<nat>, k: nat, i: nat, n: nat)
    requires Laid(s, caps) && k < |caps| && i < |caps| && i != k && s.list[k].End() + n <= caps[k]
    ensures ClearOf(s.list[i], s.list[k].addr + s.list[k].End(), n)
  {
    var rs := Rooms(s.list, caps);
    assert Disjoint(rs[if i < k then i else k], rs[if i < k then k else i]);
  }

  lemma StartHeld(s: PortState, ch: Channel, msg: Msg, addr: nat)
    requires forall i :: 0 <= i < |s.list| ==> ClearOf(s.list[i], addr, |msg|)
    ensures Held(Put(s.mem, addr, msg), s.list + [Slot(ch, addr, 0, |msg|)]) == Held(s.mem, s.list) + [Chunk(ch, msg)]
  {
    hide Read, Put, Held;
    var m, t := Put(s.mem, addr, msg), s.list + [Slot(ch, addr, 0, |msg|)];
    PutThenRead(s.mem, addr, msg);
    forall i | 0 <= i < |s.list|
      ensures Held(m, t)[i] == Held(s.mem, s.list)[i]
    {
      var o := s.list[i];
      assert t[i] == o && ClearOf(o, addr, |msg|);
      PutElsewhere(s.mem, addr, msg, o.addr + o.off, o.size);
    }
  }

  lemma JoinRefines(s: PortState, caps: seq<nat>, ch: Channel, msg: Msg)
    requires Laid(s, caps) && Joining(s.list, ch, |msg|) && Roomy(s, caps, ch, |msg|)
    ensures var t := Posted(s, ch, msg);
            Laid(t, caps) && Held(t.mem, t.list) == Sent(Held(s.mem, s.list), ch, msg, true)
  {
    hide Read, Put, Held, LastSlot, LastOf, RoomTest, Exclusive, ClearOf, Sent;
    var t, k := Posted(s, ch, msg), LastSlot(s.list, ch) - 1;
    forall i | 0 <= i < |s.list| && i != k
      ensures ClearOf(s.list[i], s.list[k].addr + s.list[k].End(), |msg|)
    {
      RoomsClear(s, caps, k, i, |msg|);
    }
    JoinHeld(s, ch, msg);
    assert Rooms(t.list, caps) == Rooms(s.list, caps);
  }

  lemma StartRefines(s: PortState, caps: seq<nat>, ch: Channel, msg: Msg)
    requires Laid(s, caps) && !Joining(s.list, ch, |msg|) && Roomy(s, caps, ch, |msg|)
    ensures var t := Posted(s, ch, msg);
            && Laid(t, caps + [UnitsFor(|msg|) * PAGE])
            && Held(t.mem, t.list) == Held(s.mem, s.list) + [Chunk(ch, msg)]
  {
    hide Read, Put, Held, LastSlot, LastOf, Joining, Exclusive, ClearOf, Allocated, UnitsFor, RequestBytes, FirstFit;
    var t, n := Posted(s, ch, msg), UnitsFor(|msg|);
    var addr := Allocated(s.free, n).0;
    FreshRoom(s, caps, n, |msg|);
    StartHeld(s, ch, msg, addr);
    assert Rooms(t.list, caps + [n * PAGE]) == Rooms(s.list, caps) + [Region(addr, n * PAGE, USABLE)];
  }

  /** A send that does not fault and whose message fits is a channel's send, and every chunk stays
      within its bytes. */
  lemma SendRefines(s: PortState, caps: seq<nat>, ch: Channel, msg: Msg) returns (caps': seq<nat>)
    requires Laid(s, caps) && !Faults(s.list, ch) && Roomy(s, caps, ch, |msg|)
    ensures var t := Posted(s, ch, msg);
            Laid(t, caps') && Held(t.mem, t.list) == Sent(Held(s.mem, s.list), ch, msg, Joining(s.list, ch, |msg|))
  {
    hide Held, LastSlot, Laid, LastOf, Posted, Roomy, Joining;
    if Joining(s.list, ch, |msg|) {
      JoinRefines(s, caps, ch, msg);
      caps' := caps;
    } else {
      StartRefines(s, caps, ch, msg);
      caps' := caps + [UnitsFor(|msg|) * PAGE];
    }
  }

  lemma FreshRoom(s: PortState, caps: seq<nat>, n: nat, size: nat)
    requires Laid(s, caps) && n == UnitsFor(size) < 0x10_0000 && FirstFit(s.free, RequestBytes(n)) < |s.free|
    ensures var (addr, rest) := Allocated(s.free, n);
            && Exclusive(PageManager.State(rest, Rooms(s.list, caps) + [Region(addr, n * PAGE, USABLE)]))
            && size <= n * PAGE
            && forall i :: 0 <= i < |s.list| ==> ClearOf(s.list[i], addr, size)
  {
    hide Allocated, RequestBytes, FirstFit;
    var rs := Rooms(s.list, caps);
    AllocExclusive(PageManager.State(s.free, rs), n);
    var (addr, rest) := Allocated(s.free, n);
    var out := rs + [Region(addr, n * PAGE, USABLE)];
    PageOfSize(size);
    forall i | 0 <= i < |s.list|
      ensures ClearOf(s.list[i], addr, size)
    {
      assert out[i] == rs[i] && Disjoint(out[i], out[|rs|]);
    }
  }

  lemma PageOfSize(size: nat)
    ensures size <= UnitsFor(size) * PAGE
  {
  }

  /** A receive that stays below the first page of its chunk is a channel's receive. */
  lemma ReceiveRefines(s: PortState, caps: seq<nat>, ch: Channel, n: nat)
    requires Laid(s, caps)
    requires var k := FirstSlot(s.list, ch, n); k < |s.list| ==> s.list[k].off + n < PAGE
    ensures var (r, t) := Taken(s, ch, n);
            Laid(t, caps) && (r, Held(t.mem, t.list)) == Received(Held(s.mem, s.list), ch, n)
  {
    hide Read, Held, FirstSlot, FirstHolding, Exclusive;
    FirstAgrees(s.mem, s.list, ch, n);
    var k := FirstSlot(s.list, ch, n);
    if k < |s.list| {
      var l, t := s.list[k], Taken(s, ch, n).1;
      PartOfRead(s.mem, l.addr + l.off, l.size, 0, n);
      PartOfRead(s.mem, l.addr + l.off, l.size, n, l.size - n);
      TwoParts(Read(s.mem, l.addr + l.off, l.size), n);
      HeldUpdated(s.mem, s.list, k, Drained(l, n));
      assert Rooms(t.list, caps) == Rooms(s.list, caps);
    }
  }

  // ----- runs of the code that keep to these conditions -----

  datatype Call = Post(ch: Channel, msg: Msg) | Take(ch: Channel, n: nat)

  function Called(s: PortState, c: Call): PortState {
    match c
    case Post(ch, msg) => Posted(s, ch, msg)
    case Take(ch, n) => Taken(s, ch, n).1
  }

  function CalledAll(s: PortState, cs: seq<Call>): PortState
    decreases |cs|
  {
    if cs == [] then s else CalledAll(Called(s, cs[0]), cs[1..])
  }

  /** What the receives on one channel return. */
  function Answers(s: PortState, cs: seq<Call>, ch: Channel): seq<Option<Msg>>
    decreases |cs|
  {
    if cs == [] then []
    else (if cs[0].Take? && cs[0].ch == ch then [Taken(s, ch, cs[0].n).0] else [])
         + Answers(Called(s, cs[0]), cs[1..], ch)
  }

  /** The call on the channel's own terms. */
  function AsOp(s: PortState, c: Call): PortTraffic.Op {
    match c
    case Post(ch, msg) => PortTraffic.Send(ch, msg, Joining(s.list, ch, |msg|))
    case Take(ch, n) => PortTraffic.Recv(ch, n)
  }

  function AsOps(s: PortState, cs: seq<Call>): seq<PortTraffic.Op>
    decreases |cs|
  {
    if cs == [] then [] else [AsOp(s, cs[0])] + AsOps(Called(s, cs[0]), cs[1..])
  }

  /** The bytes reserved for the chunks after a call. */
  function CapsAfter(s: PortState, caps: seq<nat>, c: Call): seq<nat> {
    if c.Post? && !Joining(s.list, c.ch, |c.msg|) then caps + [UnitsFor(|c.msg|) * PAGE] else caps
  }

  ghost predicate InBounds(s: PortState, caps: seq<nat>, c: Call)
    requires |caps| == |s.list|
  {
    match c
    case Post(ch, msg) => !Faults(s.list, ch) && Roomy(s, caps, ch, |msg|)
    case Take(ch, n) => var k := FirstSlot(s.list, ch, n); k < |s.list| ==> s.list[k].off + n < PAGE
  }

  ghost predicate AllInBounds(s: PortState, caps: seq<nat>, cs: seq<Call>)
    decreases |cs|
  {
    cs != [] ==>
      && |caps| == |s.list| && InBounds(s, caps, cs[0])
      && AllInBounds(Called(s, cs[0]), CapsAfter(s, caps, cs[0]), cs[1..])
  }

  lemma CallIsOp(s: PortState, caps: seq<nat>, c: Call)
    requires Laid(s, caps) && InBounds(s, caps, c)
    ensures var t := Called(s, c);
            && Laid(t, CapsAfter(s, caps, c))
            && Held(t.mem, t.list) == PortTraffic.After(Held(s.mem, s.list), AsOp(s, c))
    ensures c.Take? ==> Taken(s, c.ch, c.n).0 == Received(Held(s.mem, s.list), c.ch, c.n).0
  {
    hide Held, LastSlot, Laid, LastOf, Posted, Roomy, Joining, Taken, FirstSlot, Received;
    match c {
      case Post(ch, msg) =>
        if Joining(s.list, ch, |msg|) { JoinRefines(s, caps, ch, msg); } else { StartRefines(s, caps, ch, msg); }
        StartIsSent(Held(s.mem, s.list), ch, msg);
      case Take(ch, n) => ReceiveRefines(s, caps, ch, n);
    }
  }

  lemma StartIsSent(q: seq<Chunk>, ch: Channel, msg: Msg)
    ensures Sent(q, ch, msg, false) == q + [Chunk(ch, msg)]
  {
  }

  /** Over every run of calls that stay in bounds the code's chunks are channels: memory holds what the
      channels hold, and every receive answers as the channels do. */
  lemma {:induction false} TableIsChannels(s: PortState, caps: seq<nat>, cs: seq<Call>, ch: Channel)
    requires Laid(s, caps) && AllInBounds(s, caps, cs)
    ensures var t := CalledAll(s, cs); Held(t.mem, t.list) == PortTraffic.AfterAll(Held(s.mem, s.list), AsOps(s, cs))
    ensures Answers(s, cs, ch) == PortTraffic.Results(Held(s.mem, s.list), AsOps(s, cs), ch)
    decreases |cs|
  {
    hide Held, Laid, Posted, Taken, InBounds, CapsAfter, Received, Sent, Joining;
    if cs != [] {
      CallIsOp(s, caps, cs[0]);
      TableIsChannels(Called(s, cs[0]), CapsAfter(s, caps, cs[0]), cs[1..], ch);
      var ops := AsOps(s, cs);
      assert ops[0] == AsOp(s, cs[0]) && ops[1..] == AsOps(Called(s, cs[0]), cs[1..]);
    }
  }

  /** So from the empty table on, on a channel whose receivers replay its senders' sizes, the code's
      receives answer as a queue of messages does: each gets the next message intact, and fails only if
      none is pending.  Each message is given out in order and once. */
  lemma TableIsFifo(free: seq<Region>, mem: Store, cs: seq<Call>, ch: Channel) returns (pending: seq<Msg>)
    requires AllDisjoint(free) && AllInBounds(PortState(mem, [], free), [], cs)
    requires PortTraffic.Replays([], AsOps(PortState(mem, [], free), cs), ch)
    ensures var s := PortState(mem, [], free);
            Answers(s, cs, ch) == PortTraffic.QueueResults([], AsOps(s, cs), ch)
    ensures var s := PortState(mem, [], free);
            PortTraffic.Arrived(Answers(s, cs, ch)) + pending == PortTraffic.SentOn(AsOps(s, cs), ch)
  {
    hide Held, AllInBounds, Answers, PortTraffic.Arrived, PortTraffic.Results, PortTraffic.QueueResults,
      PortTraffic.SentOn, AsOps;
    var s := PortState(mem, [], free);
    assert Held(mem, []) == [] by { HeldNothing(mem); }
    assert Laid(s, []);
    TableIsChannels(s, [], cs, ch);
    pending := PortTraffic.FromEmpty(AsOps(s, cs), ch);
  }

  lemma HeldNothing(mem: Store)
    ensures Held(mem, []) == []
  {
  }

  // ----- and when it is not -----

  lemma OnesAndZeros(at: nat, n: nat, a: nat) returns (msg: Msg)
    requires at <= a < at + n
    ensures |msg| == n && ByteAt(Put(map[], at, msg), a) == 1
  {
    msg := seq(n, _ => 1);
    assert InRange(at, n, a);
  }

  /** A message that joins a chunk reaches its channel and no other, whatever memory and the
      message hold, exactly if it is written clear of what the other chunks hold.  The room test
      does not see to that. */
  lemma JoinIsRightIff(list: seq<Slot>, free: seq<Region>, ch: Channel, n: nat)
    requires Joining(list, ch, n)
    ensures var k := LastSlot(list, ch) - 1;
            (forall i :: 0 <= i < |list| && i != k ==> ClearOf(list[i], list[k].addr + list[k].End(), n))
            <==> (forall mem: Store, msg: Msg :: |msg| == n ==> JoinsRightly(PortState(mem, list, free), ch, msg))
  {
    hide Read, Put, Held, LastSlot, RoomTest, Sent;
    var k := LastSlot(list, ch) - 1;
    var at := list[k].addr + list[k].End();
    if forall i :: 0 <= i < |list| && i != k ==> ClearOf(list[i], at, n) {
      forall mem: Store, msg: Msg | |msg| == n
        ensures JoinsRightly(PortState(mem, list, free), ch, msg)
      {
        JoinHeld(PortState(mem, list, free), ch, msg);
      }
    } else {
      var i :| 0 <= i < |list| && i != k && !ClearOf(list[i], at, n);
      OverrunSpoils(list, free, ch, n, i);
    }
  }

  ghost predicate JoinsRightly(s: PortState, ch: Channel, msg: Msg) {
    Held(Posted(s, ch, msg).mem, Posted(s, ch, msg).list) == Sent(Held(s.mem, s.list), ch, msg, true)
  }

  lemma OverrunSpoils(list: seq<Slot>, free: seq<Region>, ch: Channel, n: nat, i: nat)
    requires Joining(list, ch, n) && i < |list| && i != LastSlot(list, ch) - 1
    requires var l := list[LastSlot(list, ch) - 1]; !ClearOf(list[i], l.addr + l.End(), n)
    ensures exists mem: Store, msg: Msg :: |msg| == n && !JoinsRightly(PortState(mem, list, free), ch, msg)
  {
    hide Read, Put, Held, LastSlot, LastOf, RoomTest;
    var k := LastSlot(list, ch) - 1;
    var o, at := list[i], list[k].addr + list[k].End();
    var a := if at <= o.addr + o.off then o.addr + o.off else at;
    var msg := OnesAndZeros(at, n, a);
    var s := PortState(map[], list, free);
    var t := Posted(s, ch, msg);
    LastAgrees(s.mem, list, ch);
    var j := a - (o.addr + o.off);
    assert Held(t.mem, t.list)[i].data[j] == ByteAt(t.mem, o.addr + o.off + j) == 1;
    assert Held(s.mem, list)[i].data[j] == ByteAt(map[], o.addr + o.off + j) == 0;
    assert Sent(Held(s.mem, list), ch, msg, true)[i] == Held(s.mem, list)[i];
    assert !JoinsRightly(s, ch, msg);
  }

  /** A message that starts a chunk reaches its channel and disturbs no other, whatever memory and the
      message hold, exactly if the address that alloc_pages gave is clear of what the chunks hold for as
      many bytes as the message has.  With no memory left that address is 0. */
  lemma StartIsRightIff(list: seq<Slot>, free: seq<Region>, ch: Channel, n: nat)
    requires !Joining(list, ch, n)
    ensures (forall i :: 0 <= i < |list| ==> ClearOf(list[i], Allocated(free, UnitsFor(n)).0, n))
            <==> (forall mem: Store, msg: Msg :: |msg| == n ==> StartsRightly(PortState(mem, list, free), ch, msg))
  {
    hide Read, Put, Held, LastSlot, Joining, Allocated, UnitsFor;
    var at := Allocated(free, UnitsFor(n)).0;
    if forall i :: 0 <= i < |list| ==> ClearOf(list[i], at, n) {
      forall mem: Store, msg: Msg | |msg| == n
        ensures StartsRightly(PortState(mem, list, free), ch, msg)
      {
        StartHeld(PortState(mem, list, free), ch, msg, at);
      }
    } else {
      var i :| 0 <= i < |list| && !ClearOf(list[i], at, n);
      StartSpoils(list, free, ch, n, i);
    }
  }

  ghost predicate StartsRightly(s: PortState, ch: Channel, msg: Msg) {
    Held(Posted(s, ch, msg).mem, Posted(s, ch, msg).list) == Held(s.mem, s.list) + [Chunk(ch, msg)]
  }

  lemma StartSpoils(list: seq<Slot>, free: seq<Region>, ch: Channel, n: nat, i: nat)
    requires !Joining(list, ch, n) && i < |list| && !ClearOf(list[i], Allocated(free, UnitsFor(n)).0, n)
    ensures exists mem: Store, msg: Msg :: |msg| == n && !StartsRightly(PortState(mem, list, free), ch, msg)
  {
    hide Read, Put, Held, LastSlot, Joining, Allocated, UnitsFor;
    var o, at := list[i], Allocated(free, UnitsFor(n)).0;
    var a := if at <= o.addr + o.off then o.addr + o.off else at;
    var msg := OnesAndZeros(at, n, a);
    var s := PortState(map[], list, free);
    var t := Posted(s, ch, msg);
    var j := a - (o.addr + o.off);
    assert t.list[i] == o;
    assert Held(t.mem, t.list)[i].data[j] == ByteAt(t.mem, o.addr + o.off + j) == 1;
    assert Held(s.mem, list)[i].data[j] == ByteAt(map[], o.addr + o.off + j) == 0;
    assert (Held(s.mem, list) + [Chunk(ch, msg)])[i] == Held(s.mem, list)[i];
    assert !StartsRightly(s, ch, msg);
  }

  /** For instance with nothing on the free list: the first messages of any two channels both start at
      address 0, and the first channel gets the second one's bytes. */
  lemma NoMemoryMixes(mem: Store, a: Channel, b: Channel, x: Msg, y: Msg)
    requires a != b && 0 < |x| <= |y|
    ensures var t := Posted(Posted(PortState(mem, [], []), a, x), b, y);
            Held(t.mem, t.list) == [Chunk(a, y[..|x|]), Chunk(b, y)]
  {
    hide Read, Put, Held;
    var s := Posted(PortState(mem, [], []), a, x);
    assert s.list == [Slot(a, 0, 0, |x|)] && s.free == [];
    assert LastSlot(s.list, b) == 0 by { assert s.list[..0] == []; }
    var t := Posted(s, b, y);
    assert t.list == [Slot(a, 0, 0, |x|), Slot(b, 0, 0, |y|)] && t.mem == Put(s.mem, 0, y);
    PutThenRead(s.mem, 0, y);
    PartOfRead(t.mem, 0, |y|, 0, |x|);
    assert y[0..0 + |x|] == y[..|x|];
  }

  /** What the room test comes to: with 0x1000 == q * end + r it lets through what fits a page with r
      bytes in it. */
  lemma RoomTestIs(end: nat, size: nat, q: nat, r: nat)
    requires 0 < end && q * end + r == 0x1000 && r < end
    ensures RoomTest(end, size) <==> r + size <= 0x1000
  {
    var q', r' := 0x1000 / end, 0x1000 % end;
    assert q' * end + r' == 0x1000;
    SameQuotient(end, q, r, q', r');
  }

  lemma SameQuotient(d: nat, q: nat, r: nat, q': nat, r': nat)
    requires q * d + r == q' * d + r' && r < d && r' < d
    ensures q == q' && r == r'
  {
    if q < q' {
      assert q' * d == q * d + (q' - q) * d;
      MoreThanOnce(q' - q, d);
      assert false;
    } else if q' < q {
      assert q * d == q' * d + (q - q') * d;
      MoreThanOnce(q - q', d);
      assert false;
    }
  }

  lemma MoreThanOnce(k: nat, d: nat)
    requires k > 0
    ensures k * d >= d
  {
    assert k * d == d + (k - 1) * d;
  }

  /** However full its page is, a chunk lets a message run over the page's end, by a byte and, past half
      a page, by up to as many bytes as it has. */
  lemma RoomTestOverruns(end: nat)
    requires 0 < end <= 0x1000
    ensures RoomTest(end, 0x1000 - end + 1)
    ensures forall n: nat :: end > 0x800 && n <= end ==> RoomTest(end, n)
  {
    var r := 0x1000 % end;
    if end > 0x800 { ModIs(PAGE, end, PAGE - end); }
  }

  lemma ModIs(a: nat, b: nat, r: nat)
    requires a == b + r && r < b
    ensures a % b == r
  {
    var k := a / b;
    assert a == k * b + a % b;
    TwiceAtLeast(k, b);
  }

  lemma TwiceAtLeast(k: nat, b: nat)
    ensures k >= 2 ==> k * b >= 2 * b
  {
    if k >= 2 { assert k * b == 2 * b + (k - 2) * b; }
  }

  /** For instance two channels with a page each, the first page nearly full: 200 more bytes pass the
      room test and are written over the second channel's message. */
  lemma OverrunExample()
    ensures var a, b := Channel(1, 2, 7), Channel(3, 2, 7);
            var list := [Slot(a, 0x40_0000, 0, 4000), Slot(b, 0x40_1000, 0, 8)];
            && Laid(PortState(map[], list, []), [PAGE, PAGE]) && Joining(list, a, 200)
            && exists mem: Store, msg: Msg :: |msg| == 200 && !JoinsRightly(PortState(mem, list, []), a, msg)
  {
    hide JoinsRightly;
    var a, b := Channel(1, 2, 7), Channel(3, 2, 7);
    var list := [Slot(a, 0x40_0000, 0, 4000), Slot(b, 0x40_1000, 0, 8)];
    assert list[..1] == [list[0]];
    assert LastSlot(list, a) == 1;
    var rs := Rooms(list, [PAGE, PAGE]);
    assert forall i, j :: 0 <= i < j < |rs| ==> Disjoint(rs[i], rs[j]);
    RoomTestOverruns(4000);
    assert RoomTest(4000, 200);
    OverrunSpoils(list, [], a, 200, 1);
  }

  /** After a receive that passes the first page, what is left is right, whatever memory holds,
      exactly if nothing is left: otherwise the same bytes are read from the start of the page. */
  lemma RestIsRightIff(l: Slot, n: nat)
    requires n <= l.size && l.off + n >= PAGE
    ensures (forall mem: Store :: RestRight(mem, l, n)) <==> n == l.size
  {
    hide Read;
    var d := Drained(l, n);
    if n == l.size {
      forall mem: Store
        ensures RestRight(mem, l, n)
      {
        assert |Read(mem, d.addr + d.off, 0)| == 0 && |Read(mem, l.addr + l.off + n, 0)| == 0;
      }
    } else {
      var mem: Store := map[l.addr + l.off + n := 1];
      assert d.off < l.off + n;
      assert Read(mem, d.addr + d.off, d.size)[0] == ByteAt(mem, d.addr + d.off) == 0;
      assert Read(mem, l.addr + l.off + n, l.size - n)[0] == ByteAt(mem, l.addr + l.off + n) == 1;
      assert !RestRight(mem, l, n);
    }
  }

  ghost predicate RestRight(mem: Store, l: Slot, n: nat) {
    n <= l.size &&
    Read(mem, Drained(l, n).addr + Drained(l, n).off, Drained(l, n).size) == Read(mem, l.addr + l.off + n, l.size - n)
  }

  /** A receive that finds its bytes leaves every chunk in bytes of its own exactly if it stays below the
      chunk's first page.  From there on the list has bytes that the chunk still points at, and only a
      chunk that is left with no extent at all shares nothing with it. */
  lemma ReceiveLaidIff(s: PortState, caps: seq<nat>, ch: Channel, n: nat)
    requires Laid(s, caps) && FirstSlot(s.list, ch, n) < |s.list|
    ensures var l, t := s.list[FirstSlot(s.list, ch, n)], Taken(s, ch, n).1;
            && (Laid(t, caps) <==> l.off + n < PAGE)
            && ((exists caps' :: Laid(t, caps')) <==> l.off + n < PAGE || Drained(l, n).End() == 0)
  {
    hide Read, Held, FirstSlot, FirstHolding, Exclusive, Freed;
    var k := FirstSlot(s.list, ch, n);
    var l, t := s.list[k], Taken(s, ch, n).1;
    if l.off + n < PAGE {
      assert Rooms(t.list, caps) == Rooms(s.list, caps);
    } else {
      forall caps' | Laid(t, caps')
        ensures caps'[k] == 0
      {
        DoublyBooked(s, caps', l, n, t, k);
      }
      assert Drained(l, n).End() <= t.list[k].End();
      if Drained(l, n).End() == 0 {
        EmptyIsLaid(s, caps, l, n, t, k);
        assert Laid(t, caps[k := 0]);
      }
    }
  }

  /** The first byte of the chunk is on the list after such a receive. */
  lemma DoublyBooked(s: PortState, caps': seq<nat>, l: Slot, n: nat, t: PortState, k: nat)
    requires k < |s.list| && l == s.list[k] && n <= l.size && l.off + n >= PAGE && Laid(t, caps')
    requires t.list == s.list[k := Drained(l, n)] && t.free == Freed(s.free, l.addr, (l.off + n) / PAGE)
    ensures caps'[k] == 0
  {
    hide Freed;
    FreeAddsItsBytes(s.free, l.addr, (l.off + n) / PAGE, l.addr);
    var r := Rooms(t.list, caps')[k];
    assert r == Region(l.addr, caps'[k], USABLE);
    assert caps'[k] > 0 ==> r.Covers(l.addr);
  }

  lemma EmptyIsLaid(s: PortState, caps: seq<nat>, l: Slot, n: nat, t: PortState, k: nat)
    requires Laid(s, caps) && k < |s.list| && l == s.list[k] && n <= l.size && l.off + n >= PAGE
    requires t.list == s.list[k := Drained(l, n)] && t.free == Freed(s.free, l.addr, (l.off + n) / PAGE)
    requires Drained(l, n).End() == 0
    ensures Laid(t, caps[k := 0])
  {
    hide Freed, Disjoint;
    var q := (l.off + n) / PAGE;
    var rs, rs' := Rooms(s.list, caps), Rooms(t.list, caps[k := 0]);
    assert q <= l.off + n <= caps[k];
    forall a: nat | l.addr <= a < l.addr + q
      ensures !Listed(s.free, a)
    {
      assert rs[k].Covers(a);
    }
    FreeKeepsDisjoint(s.free, l.addr, q);
    forall i, j | 0 <= i < j < |rs'|
      ensures Disjoint(rs'[i], rs'[j])
    {
      assert Disjoint(rs[i], rs[j]);
      EmptyDisjoint(rs'[k], rs'[if i == k then j else i]);
    }
    forall i, a: nat | 0 <= i < |rs'| && rs'[i].Covers(a)
      ensures !Listed(t.free, a)
    {
      assert i != k && rs'[i] == rs[i];
      FreeAddsItsBytes(s.free, l.addr, q, a);
      assert if i < k then Disjoint(rs[i], rs[k]) else Disjoint(rs[k], rs[i]);
      ApartBytes(rs[i], rs[k], a);
    }
  }

  lemma EmptyDisjoint(r: Region, o: Region)
    requires r.size == 0
    ensures Disjoint(r, o) && Disjoint(o, r)
  {
  }

  lemma ApartBytes(r: Region, o: Region, a: nat)
    requires (Disjoint(r, o) || Disjoint(o, r)) && r.Covers(a)
    ensures !o.Covers(a)
  {
  }

  /** A channel whose last chunk is drained exactly at a page boundary faults at the next send. */
  lemma PageBoundaryFaults(s: PortState, ch: Channel)
    requires LastSlot(s.list, ch) > 0
    requires var k := LastSlot(s.list, ch) - 1;
             FirstSlot(s.list, ch, s.list[k].size) == k && s.list[k].End() >= PAGE && s.list[k].End() % PAGE == 0
    ensures Faults(Taken(s, ch, s.list[LastSlot(s.list, ch) - 1].size).1.list, ch)
  {
    hide Read, FirstSlot, LastSlot, Freed;
    var k := LastSlot(s.list, ch) - 1;
    var t := Taken(s, ch, s.list[k].size).1;
    SameLast(s.list, t.list, ch);
  }

  lemma {:induction false} SameLast(list: seq<Slot>, list': seq<Slot>, ch: Channel)
    requires |list'| == |list| && forall i :: 0 <= i < |list| ==> list'[i].ch == list[i].ch
    ensures LastSlot(list', ch) == LastSlot(list, ch)
  {
    if list != [] && list[|list| - 1].ch != ch { SameLast(list[..|list| - 1], list'[..|list| - 1], ch); }
  }
}
