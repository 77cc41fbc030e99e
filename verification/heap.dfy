/** The C library's heap: headers and payloads in one stretch of memory. */
module Heap {
  import opened Bytes
  import opened Options
  import opened ByteStores

  const HEADER := 16
  const INITIAL_SIZE := 0x10_0000
  /** The first header and what it governs. */
  const EXTENT := 0x10_0010
  const SIZE_LIMIT := 0x1_0000_0000_0000_0000

  /** The request as malloc rounds it, in 64 bits. */
  function Rounded(sz: nat): nat {
    if sz % HEADER != 0 then (sz + (HEADER - sz % HEADER)) % SIZE_LIMIT else sz
  }

  /** Allocated blocks in address order, and the one free block after them, if any is left. */
  datatype Shape = Shape(sizes: seq<nat>, free: Option<nat>)

  /** Offset of block k's header. */
  function HeaderAt(sizes: seq<nat>, k: nat): nat
    requires k <= |sizes|
  {
    if k == 0 then 0 else HeaderAt(sizes, k - 1) + HEADER + sizes[k - 1]
  }

  /** Headers and payloads tile the heap exactly, in steps of 16 bytes. */
  ghost predicate Tiled(h: Shape) {
    && (forall k :: 0 <= k < |h.sizes| ==> h.sizes[k] % HEADER == 0)
    && (h.free.Some? ==> h.free.value % HEADER == 0)
    && HeaderAt(h.sizes, |h.sizes|) + (match h.free case None => 0 case Some(f) => HEADER + f) == EXTENT
  }

  /** What a request leads to.  With too little left the scan never ends: its exit test compares
      with where it started. */
  datatype Outcome = Got(offset: nat) | NoMemory | Endless

  /** What a split leaves, in 64 bits. */
  function Remainder(f: nat, r: nat): nat {
    (f - r - HEADER) % SIZE_LIMIT
  }

  function Request(h: Shape, sz: nat): (Outcome, Shape) {
    match h.free
    case None => (NoMemory, h)
    case Some(f) =>
      var r := Rounded(sz);
      if f < r then (Endless, h)
      else (Got(HeaderAt(h.sizes, |h.sizes|) + HEADER),
            Shape(h.sizes + [r], if f == r then None else Some(Remainder(f, r))))
  }

  lemma {:induction false} HeadersOfPrefix(sizes: seq<nat>, more: seq<nat>, k: nat)
    requires k <= |sizes| <= |more| && more[..|sizes|] == sizes
    ensures HeaderAt(more, k) == HeaderAt(sizes, k)
  {
    if k > 0 {
      HeadersOfPrefix(sizes, more, k - 1);
      assert more[k - 1] == more[..|sizes|][k - 1];
    }
  }

  lemma RoundedUp(sz: nat)
    requires sz < SIZE_LIMIT
    ensures Rounded(sz) % HEADER == 0
    ensures Rounded(sz) >= sz <==> sz <= SIZE_LIMIT - HEADER
    ensures sz > SIZE_LIMIT - HEADER ==> Rounded(sz) == 0
  {
  }

  lemma MultiplesApart(a: nat, b: nat)
    requires a % HEADER == 0 && b % HEADER == 0 && a > b && a < SIZE_LIMIT
    ensures a >= b + HEADER && Remainder(a, b) == a - b - HEADER && Remainder(a, b) % HEADER == 0
  {
  }

  /** A request that is met keeps the tiling: the split leaves room for the new header. */
  lemma RequestKeepsTiling(h: Shape, sz: nat)
    requires Tiled(h) && sz < SIZE_LIMIT
    ensures Tiled(Request(h, sz).1)
    ensures Request(h, sz).0.Got? && h.free != Some(Rounded(sz)) ==>
              h.free.value >= Rounded(sz) + HEADER && Request(h, sz).1.free == Some(h.free.value - Rounded(sz) - HEADER)
  {
    hide Remainder, Rounded;
    if h.free.Some? && h.free.value >= Rounded(sz) {
      var f, r := h.free.value, Rounded(sz);
      RoundedUp(sz);
      var t := h.sizes + [r];
      HeadersOfPrefix(h.sizes, t, |h.sizes|);
      assert HeaderAt(t, |t|) == HeaderAt(h.sizes, |h.sizes|) + HEADER + r;
      if f != r { MultiplesApart(f, r); }
    }
  }

  function RunRequests(h: Shape, szs: seq<nat>): Shape
    decreases |szs|
  {
    if szs == [] then h else RunRequests(Request(h, szs[0]).1, szs[1..])
  }

  const START := Shape([], Some(INITIAL_SIZE))

  /** Over every run the heap stays tiled. */
  lemma {:induction false} RunKeepsTiling(h: Shape, szs: seq<nat>)
    requires Tiled(h) && forall i :: 0 <= i < |szs| ==> szs[i] < SIZE_LIMIT
    ensures Tiled(RunRequests(h, szs)) && h.sizes <= RunRequests(h, szs).sizes
    decreases |szs|
  {
    if szs != [] {
      RequestKeepsTiling(h, szs[0]);
      RunKeepsTiling(Request(h, szs[0]).1, szs[1..]);
    }
  }

  /** Blocks are disjoint: block j starts after block i's payload. */
  lemma {:induction false} BlocksApart(sizes: seq<nat>, i: nat, j: nat)
    requires i < j <= |sizes|
    ensures HeaderAt(sizes, i) + HEADER + sizes[i] <= HeaderAt(sizes, j)
  {
    if i + 1 < j { BlocksApart(sizes, i, j - 1); }
  }

  /** Every header, and so every payload, is 16-byte aligned from the start of the heap. */
  lemma {:induction false} BlocksAligned(sizes: seq<nat>, k: nat)
    requires k <= |sizes| && forall i :: 0 <= i < |sizes| ==> sizes[i] % HEADER == 0
    ensures HeaderAt(sizes, k) % HEADER == 0
  {
    if k > 0 {
      BlocksAligned(sizes, k - 1);
      SumOfMultiples(HeaderAt(sizes, k - 1), sizes[k - 1]);
    }
  }

  lemma SumOfMultiples(a: nat, b: nat)
    requires a % HEADER == 0 && b % HEADER == 0
    ensures (a + HEADER + b) % HEADER == 0
  {
  }

  // ----- requests that are met -----

  /** A request that does not wrap is met if and only if, rounded up to a multiple of 16, it fits the free
      block; the answer is the payload just behind the last block.  Without a free block it is null, and
      otherwise there is no return. */
  lemma RequestIsMet(h: Shape, sz: nat)
    requires sz <= 0xFFFF_FFFF_FFFF_FFF0
    ensures Request(h, sz).0.NoMemory? <==> h.free.None?
    ensures h.free.Some? ==>
              var r := (sz + 15) / 16 * 16;
              && (Request(h, sz).0.Got? <==> r <= h.free.value)
              && (r <= h.free.value ==>
                    && Request(h, sz).0 == Got(HeaderAt(h.sizes, |h.sizes|) + 16)
                    && Request(h, sz).1.sizes == h.sizes + [r])
              && (r > h.free.value ==> Request(h, sz) == (Endless, h))
  {
    RoundedIs(sz);
  }

  lemma RoundedIs(sz: nat)
    requires sz <= 0xFFFF_FFFF_FFFF_FFF0
    ensures Rounded(sz) == (sz + 15) / 16 * 16
  {
    var q, r := sz / 16, sz % 16;
    assert sz == 16 * q + r;
    if r != 0 { assert (sz + 15) / 16 == q + 1; } else { assert (sz + 15) / 16 == q; }
  }

  /** What requests take up in all: for each a header and its size in steps of 16 bytes. */
  function TakenUp(szs: seq<nat>): nat {
    if szs == [] then 0 else TakenUp(szs[..|szs| - 1]) + 16 + (szs[|szs| - 1] + 15) / 16 * 16
  }

  /** The answer to request i of a run from the start. */
  function Answer(szs: seq<nat>, i: nat): Outcome
    requires i < |szs|
  {
    Request(RunRequests(START, szs[..i]), szs[i]).0
  }

  lemma {:induction false} RunThenOne(h: Shape, szs: seq<nat>, sz: nat)
    ensures RunRequests(h, szs + [sz]) == Request(RunRequests(h, szs), sz).1
    decreases |szs|
  {
    hide Request;
    if szs == [] {
      assert [sz][1..] == [];
    } else {
      RunThenOne(Request(h, szs[0]).1, szs[1..], sz);
      assert (szs + [sz])[1..] == szs[1..] + [sz];
    }
  }

  /** While requests fit, the next free byte is behind what they take up. */
  lemma {:induction false} AfterRequests(szs: seq<nat>)
    requires forall i :: 0 <= i < |szs| ==> szs[i] <= 0xFFFF_FFFF_FFFF_FFF0
    requires TakenUp(szs) <= 0x10_0010
    ensures var h := RunRequests(START, szs);
            Tiled(h) && HeaderAt(h.sizes, |h.sizes|) == TakenUp(szs)
    decreases |szs|
  {
    hide Request;
    if szs != [] {
      var k := |szs| - 1;
      AfterRequests(szs[..k]);
      var h := RunRequests(START, szs[..k]);
      RunThenOne(START, szs[..k], szs[k]);
      assert szs[..k] + [szs[k]] == szs;
      RequestIsMet(h, szs[k]);
      RequestKeepsTiling(h, szs[k]);
      NextHeader(h.sizes, (szs[k] + 15) / 16 * 16);
    }
  }

  /** From the start, requests are all met if and only if they fit the heap of 0x100000 bytes and its
      header in all; each then gets the payload behind what the earlier ones take up. */
  lemma AllMetIff(szs: seq<nat>)
    requires forall i :: 0 <= i < |szs| ==> szs[i] <= 0xFFFF_FFFF_FFFF_FFF0
    ensures (forall i :: 0 <= i < |szs| ==> Answer(szs, i).Got?) <==> TakenUp(szs) <= 0x10_0010
    ensures TakenUp(szs) <= 0x10_0010 ==>
              forall i :: 0 <= i < |szs| ==> Answer(szs, i) == Got(TakenUp(szs[..i]) + 16)
  {
    hide Request, TakenUp, Answer;
    if TakenUp(szs) <= 0x10_0010 {
      forall i | 0 <= i < |szs|
        ensures Answer(szs, i) == Got(TakenUp(szs[..i]) + 16)
      {
        TakesMore(szs, i, |szs|);
        TakesMore(szs, i + 1, |szs|);
        assert szs[..|szs|] == szs;
        MetAt(szs, i);
      }
    } else if forall i :: 0 <= i < |szs| ==> Answer(szs, i).Got? {
      assert szs[..|szs|] == szs;
      MetFits(szs, |szs|);
    }
  }

  lemma {:induction false} TakesMore(szs: seq<nat>, i: nat, j: nat)
    requires i <= j <= |szs|
    ensures TakenUp(szs[..i]) <= TakenUp(szs[..j])
    decreases j
  {
    if i < j {
      TakesMore(szs, i, j - 1);
      assert szs[..j][..j - 1] == szs[..j - 1];
    }
  }

  lemma MetAt(szs: seq<nat>, i: nat)
    requires i < |szs| && (forall j :: 0 <= j < |szs| ==> szs[j] <= 0xFFFF_FFFF_FFFF_FFF0)
    requires TakenUp(szs[..i]) <= 0x10_0010
    ensures Answer(szs, i).Got? <==> TakenUp(szs[..i + 1]) <= 0x10_0010
    ensures Answer(szs, i).Got? ==> Answer(szs, i) == Got(TakenUp(szs[..i]) + 16)
  {
    hide Request;
    AfterRequests(szs[..i]);
    assert szs[..i + 1][..i] == szs[..i];
    RequestIsMet(RunRequests(START, szs[..i]), szs[i]);
  }

  lemma {:induction false} MetFits(szs: seq<nat>, k: nat)
    requires k <= |szs| && (forall j :: 0 <= j < |szs| ==> szs[j] <= 0xFFFF_FFFF_FFFF_FFF0)
    requires forall i :: 0 <= i < k ==> Answer(szs, i).Got?
    ensures TakenUp(szs[..k]) <= 0x10_0010
    decreases k
  {
    hide Answer;
    if k == 0 {
      assert szs[..0] == [];
    } else {
      MetFits(szs, k - 1);
      MetAt(szs, k - 1);
    }
  }

  /** The rounding wraps for the largest sizes: a block of no bytes is handed out. */
  lemma WrappedRequestGetsNothing(h: Shape, sz: nat)
    requires SIZE_LIMIT - HEADER < sz < SIZE_LIMIT && h.free.Some?
    ensures Request(h, sz).0.Got? && Request(h, sz).1.sizes == h.sizes + [0]
  {
    RoundedUp(sz);
  }

  // ----- headers in memory -----

  function WordAt(mem: Store, a: nat): nat {
    FromLe(Read(mem, a, 8))
  }

  function PutWord(mem: Store, a: nat, v: nat): Store {
    Put(mem, a, ToLe(v, 8))
  }

  lemma WordPut(mem: Store, a: nat, v: nat, b: nat)
    requires v < SIZE_LIMIT
    ensures WordAt(PutWord(mem, a, v), a) == v
    ensures b + 8 <= a || a + 8 <= b ==> WordAt(PutWord(mem, a, v), b) == WordAt(mem, b)
    ensures Below(mem, PutWord(mem, a, v), a)
  {
    hide Read, Put, ToLe, FromLe;
    PutThenRead(mem, a, ToLe(v, 8));
    assert Pow256(8) == SIZE_LIMIT;
    LeRoundTrip(v, 8);
    if b + 8 <= a || a + 8 <= b { PutElsewhere(mem, a, ToLe(v, 8), b, 8); }
  }

  /** Bytes below the limit are the same. */
  ghost predicate Below(mem: Store, mem': Store, limit: nat) {
    forall i: nat :: i < limit ==> ByteAt(mem', i) == ByteAt(mem, i)
  }

  lemma ReadBelow(mem: Store, mem': Store, limit: nat, off: nat, n: nat)
    requires Below(mem, mem', limit) && off + n <= limit
    ensures Read(mem', off, n) == Read(mem, off, n)
  {
    hide Read, ByteAt;
    var r, q := Read(mem', off, n), Read(mem, off, n);
    forall i: nat | i < n
      ensures r[i] == q[i]
    {
      assert r[i] == ByteAt(mem', off + i);
    }
  }

  /** Every allocated block's header says its size. */
  ghost predicate HeadersIn(mem: Store, base: nat, sizes: seq<nat>) {
    forall k :: 0 <= k < |sizes| ==> WordAt(mem, base + HeaderAt(sizes, k)) == sizes[k]
  }

  /** The free block's header says its size and points to itself: it is alone on its ring. */
  ghost predicate FreeIn(mem: Store, base: nat, h: Shape, hdr: Option<nat>) {
    match h.free
    case None => hdr == None
    case Some(f) =>
      var a := base + HeaderAt(h.sizes, |h.sizes|);
      hdr == Some(a) && WordAt(mem, a) == f && WordAt(mem, a + 8) == a
  }

  lemma HeadersStay(mem: Store, mem': Store, base: nat, sizes: seq<nat>)
    requires HeadersIn(mem, base, sizes) && Below(mem, mem', base + HeaderAt(sizes, |sizes|))
    ensures HeadersIn(mem', base, sizes)
  {
    hide WordAt, HeaderAt, Below;
    forall k | 0 <= k < |sizes|
      ensures WordAt(mem', base + HeaderAt(sizes, k)) == sizes[k]
    {
      BlocksApart(sizes, k, |sizes|);
      WordBelow(mem, mem', base + HeaderAt(sizes, |sizes|), base + HeaderAt(sizes, k));
    }
  }

  lemma WordBelow(mem: Store, mem': Store, limit: nat, a: nat)
    requires Below(mem, mem', limit) && a + 8 <= limit
    ensures WordAt(mem', a) == WordAt(mem, a)
  {
    hide Read, FromLe, Below;
    ReadBelow(mem, mem', limit, a, 8);
  }

  lemma NextHeader(sizes: seq<nat>, r: nat)
    ensures HeaderAt(sizes + [r], |sizes| + 1) == HeaderAt(sizes, |sizes|) + HEADER + r
  {
    HeadersOfPrefix(sizes, sizes + [r], |sizes|);
  }

  /** One more header. */
  lemma HeaderAdded(mem: Store, base: nat, sizes: seq<nat>, r: nat)
    requires HeadersIn(mem, base, sizes) && WordAt(mem, base + HeaderAt(sizes, |sizes|)) == r
    ensures HeadersIn(mem, base, sizes + [r])
    ensures HeaderAt(sizes + [r], |sizes| + 1) == HeaderAt(sizes, |sizes|) + HEADER + r
  {
    hide WordAt, HeaderAt;
    var t := sizes + [r];
    NextHeader(sizes, r);
    forall k | 0 <= k < |t|
      ensures WordAt(mem, base + HeaderAt(t, k)) == t[k]
    {
      HeadersOfPrefix(sizes, t, k - if k < |sizes| then 0 else k - |sizes|);
    }
  }

  /** The three stores of a split. */
  function SplitStores(mem: Store, cur: nat, at: nat, asked: nat, rest: nat): Store {
    PutWord(PutWord(PutWord(mem, at, rest), cur, asked), at + 8, at)
  }

  lemma SplitWords(mem: Store, cur: nat, at: nat, asked: nat, rest: nat)
    requires cur + HEADER <= at && asked < SIZE_LIMIT && rest < SIZE_LIMIT && at < SIZE_LIMIT
    ensures var m := SplitStores(mem, cur, at, asked, rest);
            WordAt(m, cur) == asked && WordAt(m, at) == rest && WordAt(m, at + 8) == at && Below(mem, m, cur)
  {
    hide WordAt, PutWord, ByteAt;
    var m1 := PutWord(mem, at, rest);
    var m2 := PutWord(m1, cur, asked);
    WordPut(mem, at, rest, cur);
    WordPut(m1, cur, asked, at);
    WordPut(m2, at + 8, at, cur);
    WordPut(m2, at + 8, at, at);
  }

  // ----- the code, on memory -----

  class Allocator {
    var mem: Store
    /** Where the scan starts, or null. */
    var hdr: Option<nat>
    var first: bool
    const base: nat
    ghost var shape: Shape

    constructor (base: nat, mem: Store)
      requires base + EXTENT <= SIZE_LIMIT
      ensures this.base == base && this.mem == mem && first && Valid() && shape == START
    {
      this.base, this.mem, hdr, first, shape := base, mem, None, true, START;
    }

    ghost predicate Valid()
      reads this
    {
      && Tiled(shape) && base + EXTENT <= SIZE_LIMIT
      && if first then shape == START
         else HeadersIn(mem, base, shape.sizes) && FreeIn(mem, base, shape, hdr)
    }

    /** malloc: null when no block is left; the other failure never returns. */
    method Malloc(sz: nat) returns (r: Outcome)
      requires Valid() && sz < SIZE_LIMIT
      modifies this
      ensures Valid() && !first && (r, shape) == Request(old(shape), sz)
      ensures Below(old(mem), mem, base + HeaderAt(old(shape).sizes, |old(shape).sizes|))
    {
      hide WordAt, PutWord, Rounded, Remainder, HeaderAt, ByteAt;
      ghost var h, mem0 := shape, mem;
      if first {
        hdr := Some(base);
        mem := PutWord(PutWord(mem, base, INITIAL_SIZE), base + 8, base);
        first := false;
        Started(mem0, base);
      }
      ghost var mem1, top := mem, base + HeaderAt(h.sizes, |h.sizes|);
      assert Below(mem0, mem1, top) by { NothingBelow(base); }
      if hdr == None { return NoMemory; }
      var asked := Rounded(sz);
      var cur := WordAt(mem, hdr.value + 8);
      var size := WordAt(mem, cur);
      if size < asked { return Endless; }
      RequestKeepsTiling(h, sz);
      RoundedUp(sz);
      ghost var f := size;
      if size == asked {
        hdr := None;
      } else {
        var at := cur + HEADER + asked;
        TopBound(h);
        SplitWords(mem, cur, at, asked, Remainder(f, asked));
        mem := SplitStores(mem, cur, at, asked, Remainder(size, asked));
        hdr := Some(at);
        HeadersStay(mem1, mem, base, h.sizes);
      }
      HeaderAdded(mem, base, h.sizes, asked);
      r := Got(cur + HEADER - base);
      shape := Request(h, sz).1;
    }

    /** A loop that clears n bytes. */
    method Clear(d: nat, n: nat)
      modifies this`mem
      ensures Only(old(mem), mem, d, n) && Read(mem, d, n) == Zeros(n)
    {
      hide Read, ByteAt, Only;
      OnlyNothing(mem, d, n);
      var i := 0;
      while i < n
        invariant i <= n && Only(old(mem), mem, d, n) && Read(mem, d, i) == Zeros(i)
      {
        OneByte(old(mem), mem, d, n, i, 0);
        mem := mem[d + i := 0];
        i := i + 1;
      }
    }

    /** The copy loop of realloc: up to the new size, or the old block's as its header says. */
    method CopyOld(src: nat, dst: nat, sz: nat, ghost size: nat) returns (n: nat)
      requires HEADER <= src && WordAt(mem, src - HEADER) == size && src + size <= dst
      modifies this`mem
      ensures n == (if sz < size then sz else size) && Only(old(mem), mem, dst, n)
      ensures Read(mem, dst, n) == Read(old(mem), src, n)
    {
      hide Read, ByteAt, Only, WordAt;
      OnlyNothing(mem, dst, 0);
      NoBytes(mem, src, dst);
      n := 0;
      while n < sz && n < WordAt(mem, src - HEADER)
        invariant n <= sz && n <= size && Only(old(mem), mem, dst, n) && WordAt(mem, src - HEADER) == size
        invariant Read(mem, dst, n) == Read(old(mem), src, n)
      {
        var b := ByteAt(mem, src + n);
        SourceByte(old(mem), mem, src, dst, n);
        OnlyMore(old(mem), mem, dst, n);
        OneByte(old(mem), mem, dst, n + 1, n, b);
        mem := mem[dst + n := b];
        WordOutside(old(mem), mem, dst, n + 1, src - HEADER);
        n := n + 1;
      }
    }

    /** calloc: the product is taken in 64 bits, for the request and for the loop alike. */
    method Calloc(cnt: nat, sz: nat) returns (r: Outcome)
      requires Valid() && cnt * sz % SIZE_LIMIT <= SIZE_LIMIT - HEADER
      modifies this
      ensures Valid() && (r, shape) == Request(old(shape), cnt * sz % SIZE_LIMIT)
      ensures Below(old(mem), mem, base + HeaderAt(old(shape).sizes, |old(shape).sizes|))
      ensures r.Got? ==> Read(mem, base + r.offset, cnt * sz % SIZE_LIMIT) == Zeros(cnt * sz % SIZE_LIMIT)
    {
      hide WordAt, HeaderAt, Rounded, Remainder, HeadersIn, FreeIn, Tiled, Read, Below, Only;
      var n := cnt * sz % SIZE_LIMIT;
      ghost var h, mem0 := shape, mem;
      r := Malloc(n);
      if !r.Got? { return; }
      ghost var mem1 := mem;
      GotIsLast(h, n);
      Clear(base + r.offset, n);
      PayloadWritten(mem1, mem, base, shape, hdr, |h.sizes|, n);
      BelowThen(mem0, mem1, mem, base + HeaderAt(h.sizes, |h.sizes|), base + r.offset, n);
    }

    /** realloc of block k, unless the heap is used up: the common prefix, then zeros, or no return.  The
        old block stays allocated, as free() does nothing. */
    method Realloc(src: nat, sz: nat, ghost k: nat) returns (r: Outcome)
      requires Valid() && !first && sz <= SIZE_LIMIT - HEADER && !Request(shape, sz).0.NoMemory?
      requires k < |shape.sizes| && src == base + HeaderAt(shape.sizes, k) + HEADER
      modifies this
      ensures Valid() && (r, shape) == Request(old(shape), sz)
      ensures Below(old(mem), mem, base + HeaderAt(old(shape).sizes, |old(shape).sizes|))
      ensures var n := if sz < old(shape).sizes[k] then sz else old(shape).sizes[k];
              r.Got? ==> Read(mem, base + r.offset, sz) == Read(old(mem), src, n) + Zeros(sz - n)
    {
      hide WordAt, HeaderAt, Rounded, Remainder, HeadersIn, FreeIn, Tiled, Read, Below, Only, ByteAt;
      ghost var h, mem0 := shape, mem;
      r := Malloc(sz);
      if r.Endless? { return; }
      ghost var mem1 := mem;
      var nw := base + r.offset;
      ghost var size, limit := h.sizes[k], base + HeaderAt(h.sizes, |h.sizes|);
      GotIsLast(h, sz);
      HeadersMore(mem1, base, h.sizes, shape.sizes, k);
      BlocksApart(h.sizes, k, |h.sizes|);
      var n := CopyOld(src, nw, sz, size);
      ghost var mem2 := mem;
      Clear(nw + n, sz - n);
      ReadBelow(mem0, mem1, limit, src, n);
      CopiedThenCleared(mem1, mem2, mem, nw, n, sz);
      PayloadWritten(mem1, mem, base, shape, hdr, |h.sizes|, sz);
      BelowThen(mem0, mem1, mem, limit, nw, sz);
    }
  }

  lemma OnlyNothing(mem: Store, d: nat, n: nat)
    ensures Only(mem, mem, d, n) && Read(mem, d, 0) == Zeros(0)
  {
  }

  lemma NoBytes(mem: Store, src: nat, dst: nat)
    ensures Read(mem, dst, 0) == Read(mem, src, 0)
  {
  }

  lemma OnlyMore(mem: Store, mem': Store, d: nat, n: nat)
    requires Only(mem, mem', d, n)
    ensures Only(mem, mem', d, n + 1)
  {
    hide ByteAt;
  }

  /** One more byte at the end of what was written. */
  lemma OneByte(mem: Store, mem1: Store, d: nat, n: nat, i: nat, b: Byte)
    requires Only(mem, mem1, d, n) && i < n
    ensures var m := mem1[d + i := b];
            Only(mem, m, d, n) && Read(m, d, i + 1) == Read(mem1, d, i) + [b]
    ensures Zeros(i + 1) == Zeros(i) + [0]
  {
    hide Read;
    var m := mem1[d + i := b];
    var l, r := Read(m, d, i + 1), Read(mem1, d, i) + [b];
    forall j: nat | j < i + 1
      ensures l[j] == r[j]
    {
      assert l[j] == ByteAt(m, d + j);
    }
  }

  /** A byte of the source, which lies below everything written. */
  lemma SourceByte(mem: Store, mem1: Store, src: nat, dst: nat, n: nat)
    requires Only(mem, mem1, dst, n) && src + n < dst
    ensures Read(mem, src, n + 1) == Read(mem, src, n) + [ByteAt(mem1, src + n)]
  {
    hide ByteAt;
  }

  lemma CopiedThenCleared(m1: Store, m2: Store, m3: Store, d: nat, n: nat, sz: nat)
    requires n <= sz && Only(m1, m2, d, n) && Only(m2, m3, d + n, sz - n) && Read(m3, d + n, sz - n) == Zeros(sz - n)
    ensures Only(m1, m3, d, sz) && Read(m3, d, sz) == Read(m2, d, n) + Zeros(sz - n)
  {
    hide Read, ByteAt;
    var l, p, z := Read(m3, d, sz), Read(m2, d, n), Read(m3, d + n, sz - n);
    forall j: nat | j < sz
      ensures l[j] == (p + z)[j]
    {
      assert l[j] == ByteAt(m3, d + j);
      if j >= n { assert z[j - n] == ByteAt(m3, d + n + (j - n)); }
    }
    assert l == p + z;
  }

  /** Only the bytes lo .. lo+n-1 differ. */
  ghost predicate Only(mem: Store, mem': Store, lo: nat, n: nat) {
    forall i: nat :: i < lo || lo + n <= i ==> ByteAt(mem', i) == ByteAt(mem, i)
  }

  lemma WordOutside(mem: Store, mem': Store, lo: nat, n: nat, a: nat)
    requires Only(mem, mem', lo, n) && (a + 8 <= lo || lo + n <= a)
    ensures WordAt(mem', a) == WordAt(mem, a)
  {
    hide Read, FromLe, ByteAt;
    var r, q := Read(mem', a, 8), Read(mem, a, 8);
    forall i: nat | i < 8
      ensures r[i] == q[i]
    {
      assert r[i] == ByteAt(mem', a + i);
    }
    assert r == q;
  }

  /** Writing inside a block's payload leaves every header as it is. */
  lemma PayloadWritten(mem: Store, mem': Store, base: nat, h: Shape, hdr: Option<nat>, k: nat, n: nat)
    requires HeadersIn(mem, base, h.sizes) && FreeIn(mem, base, h, hdr)
    requires k < |h.sizes| && n <= h.sizes[k] && Only(mem, mem', base + HeaderAt(h.sizes, k) + HEADER, n)
    ensures HeadersIn(mem', base, h.sizes) && FreeIn(mem', base, h, hdr)
  {
    hide WordAt, HeaderAt, Only;
    var lo := base + HeaderAt(h.sizes, k) + HEADER;
    forall j | 0 <= j < |h.sizes|
      ensures WordAt(mem', base + HeaderAt(h.sizes, j)) == h.sizes[j]
    {
      if j < k { BlocksApart(h.sizes, j, k); }
      if k < j { BlocksApart(h.sizes, k, j); }
      WordOutside(mem, mem', lo, n, base + HeaderAt(h.sizes, j));
    }
    var top := base + HeaderAt(h.sizes, |h.sizes|);
    BlocksApart(h.sizes, k, |h.sizes|);
    WordOutside(mem, mem', lo, n, top);
    WordOutside(mem, mem', lo, n, top + 8);
  }

  lemma GotIsLast(h: Shape, n: nat)
    requires Request(h, n).0.Got? && n <= SIZE_LIMIT - HEADER
    ensures var t := Request(h, n).1;
            && t.sizes == h.sizes + [Rounded(n)] && n <= Rounded(n)
            && HeaderAt(t.sizes, |h.sizes|) == HeaderAt(h.sizes, |h.sizes|)
            && Request(h, n).0.offset == HeaderAt(h.sizes, |h.sizes|) + HEADER
  {
    hide Rounded, HeaderAt, Remainder;
    RoundedUp(n);
    HeadersOfPrefix(h.sizes, h.sizes + [Rounded(n)], |h.sizes|);
  }

  lemma BelowThen(mem0: Store, mem1: Store, mem2: Store, limit: nat, lo: nat, n: nat)
    requires Below(mem0, mem1, limit) && Only(mem1, mem2, lo, n) && limit <= lo
    ensures Below(mem0, mem2, limit)
  {
    hide ByteAt;
  }

  lemma HeadersMore(mem: Store, base: nat, sizes: seq<nat>, more: seq<nat>, k: nat)
    requires HeadersIn(mem, base, more) && k < |sizes| <= |more| && more[..|sizes|] == sizes
    ensures WordAt(mem, base + HeaderAt(sizes, k)) == sizes[k]
  {
    hide WordAt, HeaderAt;
    HeadersOfPrefix(sizes, more, k);
    assert more[k] == more[..|sizes|][k];
  }

  lemma NothingBelow(base: nat)
    ensures base + HeaderAt([], 0) == base
  {
  }

  lemma Started(mem: Store, base: nat)
    requires base + EXTENT <= SIZE_LIMIT
    ensures var m := PutWord(PutWord(mem, base, INITIAL_SIZE), base + 8, base);
            HeadersIn(m, base, []) && FreeIn(m, base, START, Some(base)) && Below(mem, m, base)
  {
    hide WordAt, PutWord, ByteAt;
    WordPut(mem, base, INITIAL_SIZE, base + 8);
    WordPut(PutWord(mem, base, INITIAL_SIZE), base + 8, base, base);
  }

  lemma TopBound(h: Shape)
    requires Tiled(h) && h.free.Some?
    ensures HeaderAt(h.sizes, |h.sizes|) + HEADER + h.free.value == EXTENT
  {
  }
}
