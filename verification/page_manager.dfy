/** The page manager: first-fit allocation and one-sided coalescing over a linked list of
    memory regions. */
module PageManager {
  const PAGE_SIZE := 0x1000
  const UINT_LIMIT := 0x1_0000_0000

  /** The memory type of the firmware map that is handed out. */
  const USABLE := 1

  datatype Region = Region(addr: nat, size: nat, kind: nat) {
    predicate Covers(a: nat) {
      addr <= a < addr + size
    }

    predicate Fits(sz: nat) {
      size >= sz && kind == USABLE
    }
  }

  // ----- what the two operations do to the list, as functions -----

  /** Position of the first usable region of at least sz bytes, or |rs|. */
  function FirstFit(rs: seq<Region>, sz: nat): (k: nat)
    ensures k <= |rs|
    ensures k < |rs| ==> rs[k].Fits(sz)
    ensures forall i :: 0 <= i < k ==> !rs[i].Fits(sz)
  {
    if rs == [] || rs[0].Fits(sz) then 0 else 1 + FirstFit(rs[1..], sz)
  }

  /** The request in bytes: the product is taken in 32 bits. */
  function RequestBytes(pages: nat): nat {
    pages * PAGE_SIZE % UINT_LIMIT
  }

  function TakeFrom(rs: seq<Region>, k: nat, sz: nat): seq<Region>
    requires k < |rs| && sz <= rs[k].size
  {
    if rs[k].size == sz then rs[..k] + rs[k + 1..]
    else rs[k := Region(rs[k].addr + sz, rs[k].size - sz, rs[k].kind)]
  }

  /** Address handed out (0 if none) and the remaining list. */
  function Allocated(rs: seq<Region>, pages: nat): (nat, seq<Region>) {
    var sz := RequestBytes(pages);
    var k := FirstFit(rs, sz);
    if k == |rs| then (0, rs) else (rs[k].addr, TakeFrom(rs, k, sz))
  }

  predicate Touches(r: Region, addr: nat, size: nat) {
    r.addr + r.size == addr || addr + size == r.addr
  }

  function Merged(r: Region, addr: nat, size: nat): Region
  {
    if r.addr + r.size == addr then Region(r.addr, r.size + size, r.kind)
    else Region(addr, r.size + size, r.kind)
  }

  /** Position of the first region the range touches, or |rs|. */
  function FirstTouching(rs: seq<Region>, addr: nat, size: nat): (k: nat)
    ensures k <= |rs|
    ensures k < |rs| ==> Touches(rs[k], addr, size)
    ensures forall i :: 0 <= i < k ==> !Touches(rs[i], addr, size)
  {
    if rs == [] || Touches(rs[0], addr, size) then 0 else 1 + FirstTouching(rs[1..], addr, size)
  }

  function Freed(rs: seq<Region>, addr: nat, size: nat): seq<Region> {
    var k := FirstTouching(rs, addr, size);
    if k == |rs| then [Region(addr, size, USABLE)] + rs
    else rs[k := Merged(rs[k], addr, size)]
  }

  // ----- the linked list -----

  class RegionNode {
    var addr: nat
    var size: nat
    var kind: nat
    var next: RegionNode?

    constructor (addr: nat, size: nat, kind: nat, next: RegionNode?)
      ensures this.addr == addr && this.size == size && this.kind == kind && this.next == next
    {
      this.addr, this.size, this.kind, this.next := addr, size, kind, next;
    }

    ghost function Value(): Region
      reads this
    {
      Region(addr, size, kind)
    }
  }

  class FreeList {
    var head: RegionNode?
    ghost var chain: seq<RegionNode>
    ghost var repr: set<RegionNode>

    /** The k-th node of the list, null past its end. */
    ghost function At(k: nat): RegionNode?
      reads this
    {
      if k < |chain| then chain[k] else null
    }

    ghost predicate Valid()
      reads this, chain
    {
      && (forall i :: 0 <= i < |chain| ==> chain[i] in repr)
      && head == At(0)
      && (forall i {:trigger chain[i].next} :: 0 <= i < |chain| ==> chain[i].next == At(i + 1))
      && (forall i, j :: 0 <= i < j < |chain| ==> chain[i] != chain[j])
    }

    ghost function Regions(): (rs: seq<Region>)
      reads this, chain
      ensures |rs| == |chain|
      ensures forall i :: 0 <= i < |rs| ==> rs[i] == chain[i].Value()
    {
      RegionsOf(chain)
    }

    constructor ()
      ensures Valid() && chain == [] && repr == {}
    {
      head, chain, repr := null, [], {};
    }

    method AllocPages(sz: nat) returns (addr: nat)
      requires Valid()
      modifies this, repr
      ensures Valid() && repr == old(repr)
      ensures (addr, Regions()) == Allocated(old(Regions()), sz)
    {
      hide RegionsOf, FirstFit;
      ghost var rs := Regions();
      var bytes := sz * 0x1000 % 0x1_0000_0000;
      var cur, prev: RegionNode? := head, null;
      ghost var k := 0;
      while cur != null
        invariant k <= |chain|
        invariant cur == At(k)
        invariant prev == if 0 < k then At(k - 1) else null
        invariant forall i :: 0 <= i < k ==> !rs[i].Fits(bytes)
        decreases |chain| - k
        modifies {}
      {
        if cur.size >= bytes && cur.kind == USABLE { break; }
        prev, cur, k := cur, cur.next, k + 1;
      }
      assert k == FirstFit(rs, bytes);
      if cur == null { return 0; }
      addr := cur.addr;
      if cur.size == bytes {
        Unlink(prev, cur, k);
      } else {
        cur.size := cur.size - bytes;
        cur.addr := cur.addr + bytes;
        assert Regions() == TakeFrom(rs, k, bytes);
      }
    }

    /** Take the k-th node off the list. */
    method Unlink(prev: RegionNode?, cur: RegionNode, ghost k: nat)
      requires Valid() && k < |chain| && cur == chain[k]
      requires prev == if 0 < k then At(k - 1) else null
      modifies this, repr
      ensures Valid() && repr == old(repr)
      ensures Regions() == old(Regions()[..k] + Regions()[k + 1..])
    {
      hide RegionsOf;
      if prev == null { head := cur.next; } else { prev.next := cur.next; }
      chain := chain[..k] + chain[k + 1..];
      assert forall i {:trigger chain[i]} :: 0 <= i < |chain| ==>
          chain[i] == old(chain)[if i < k then i else i + 1];
    }

    method FreePages(addr: nat, size: nat)
      requires Valid()
      modifies this, repr
      ensures Valid() && fresh(repr - old(repr))
      ensures Regions() == Freed(old(Regions()), addr, size)
    {
      ghost var rs := Regions();
      var cur := head;
      ghost var k := 0;
      while cur != null
        invariant k <= |chain|
        invariant cur == At(k)
        invariant forall i :: 0 <= i < k ==> !Touches(rs[i], addr, size)
        decreases |chain| - k
        modifies {}
      {
        if cur.addr + cur.size == addr || addr + size == cur.addr { break; }
        cur, k := cur.next, k + 1;
      }
      assert k == FirstTouching(rs, addr, size);
      if cur != null {
        Extend(cur, k, addr, size);
      } else {
        Prepend(addr, size);
      }
    }

    /** Let the k-th region take in the range it touches. */
    method Extend(cur: RegionNode, ghost k: nat, addr: nat, size: nat)
      requires Valid() && k < |chain| && cur == chain[k]
      requires Touches(Regions()[k], addr, size)
      modifies cur
      ensures Valid()
      ensures Regions() == old(Regions())[k := Merged(old(Regions())[k], addr, size)]
    {
      hide RegionsOf;
      if cur.addr + cur.size == addr {
        cur.size := cur.size + size;
      } else {
        cur.size := cur.size + size;
        cur.addr := addr;
      }
    }

    /** A fresh usable region at the front of the list. */
    method Prepend(addr: nat, size: nat)
      requires Valid()
      modifies this
      ensures Valid() && fresh(repr - old(repr))
      ensures Regions() == [Region(addr, size, USABLE)] + old(Regions())
    {
      var node := new RegionNode(addr, size, USABLE, head);
      head := node;
      chain := [node] + chain;
      repr := repr + {node};
      assert forall i {:trigger chain[i]} :: 1 <= i < |chain| ==> chain[i] == old(chain)[i - 1];
    }
  }

  ghost function RegionsOf(nodes: seq<RegionNode>): (rs: seq<Region>)
    reads nodes
    ensures |rs| == |nodes|
    ensures forall i :: 0 <= i < |rs| ==> rs[i] == nodes[i].Value()
  {
    if nodes == [] then [] else [nodes[0].Value()] + RegionsOf(nodes[1..])
  }

  // ----- conservation and disjointness, over every sequence of operations -----

  ghost predicate Disjoint(r: Region, s: Region) {
    r.size == 0 || s.size == 0 || r.addr + r.size <= s.addr || s.addr + s.size <= r.addr
  }

  ghost predicate AllDisjoint(rs: seq<Region>) {
    forall i, j :: 0 <= i < j < |rs| ==> Disjoint(rs[i], rs[j])
  }

  /** Some region of the list covers byte a. */
  ghost predicate Listed(rs: seq<Region>, a: nat) {
    exists i :: 0 <= i < |rs| && rs[i].Covers(a)
  }

  /** Some usable region of the list covers byte a. */
  ghost predicate Usable(rs: seq<Region>, a: nat) {
    exists i :: 0 <= i < |rs| && rs[i].Covers(a) && rs[i].kind == USABLE
  }

  function Total(rs: seq<Region>): nat {
    if rs == [] then 0 else rs[0].size + Total(rs[1..])
  }

  lemma {:induction false} TotalSplit(rs: seq<Region>, k: nat)
    requires k < |rs|
    ensures Total(rs) == Total(rs[..k]) + rs[k].size + Total(rs[k + 1..])
  {
    if k == 0 {
      assert rs[..0] == [];
    } else {
      TotalSplit(rs[1..], k - 1);
      assert rs[..k][1..] == rs[1..][..k - 1] && rs[1..][k..] == rs[k + 1..];
    }
  }

  lemma TotalUpdate(rs: seq<Region>, k: nat, r: Region)
    requires k < |rs|
    ensures Total(rs[k := r]) == Total(rs) - rs[k].size + r.size
  {
    var t := rs[k := r];
    TotalSplit(rs, k);
    TotalSplit(t, k);
    assert t[..k] == rs[..k] && t[k + 1..] == rs[k + 1..];
  }

  lemma {:induction false} TotalConcat(rs: seq<Region>, ss: seq<Region>)
    ensures Total(rs + ss) == Total(rs) + Total(ss)
  {
    if rs == [] {
      assert rs + ss == ss;
    } else {
      TotalConcat(rs[1..], ss);
      assert (rs + ss)[1..] == rs[1..] + ss;
    }
  }

  lemma BytesAfterRemoval(rs: seq<Region>, k: nat, a: nat)
    requires AllDisjoint(rs) && k < |rs|
    ensures Listed(rs[..k] + rs[k + 1..], a) <==> Listed(rs, a) && !rs[k].Covers(a)
    ensures Usable(rs[..k] + rs[k + 1..], a) <==> Usable(rs, a) && !rs[k].Covers(a)
  {
    var t := rs[..k] + rs[k + 1..];
    forall i | 0 <= i < |rs| && i != k
      ensures rs[i] in t && !(rs[i].Covers(a) && rs[k].Covers(a))
    {
      assert t[if i < k then i else i - 1] == rs[i];
      assert if i < k then Disjoint(rs[i], rs[k]) else Disjoint(rs[k], rs[i]);
    }
    forall j | 0 <= j < |t|
      ensures t[j] == rs[if j < k then j else j + 1]
    {
    }
  }

  lemma BytesAfterShrink(rs: seq<Region>, k: nat, sz: nat, a: nat)
    requires AllDisjoint(rs) && k < |rs| && sz < rs[k].size
    ensures var taken := rs[k].addr <= a < rs[k].addr + sz;
            && (Listed(TakeFrom(rs, k, sz), a) <==> Listed(rs, a) && !taken)
            && (Usable(TakeFrom(rs, k, sz), a) <==> Usable(rs, a) && !taken)
  {
    var t := TakeFrom(rs, k, sz);
    assert forall i :: 0 <= i < |rs| && i != k ==> t[i] == rs[i];
    forall i | 0 <= i < |rs| && i != k
      ensures !(rs[i].Covers(a) && rs[k].Covers(a))
    {
      assert if i < k then Disjoint(rs[i], rs[k]) else Disjoint(rs[k], rs[i]);
    }
    assert t[k].kind == rs[k].kind;
  }

  /** An allocation that succeeds takes exactly its own bytes off the list, all of them usable. */
  lemma AllocTakesItsBytes(rs: seq<Region>, pages: nat, a: nat)
    requires AllDisjoint(rs)
    ensures var k := FirstFit(rs, RequestBytes(pages));
            var taken := k < |rs| && rs[k].addr <= a < rs[k].addr + RequestBytes(pages);
            && (Listed(Allocated(rs, pages).1, a) <==> Listed(rs, a) && !taken)
            && (Usable(Allocated(rs, pages).1, a) <==> Usable(rs, a) && !taken)
            && (taken ==> Usable(rs, a))
  {
    var sz := RequestBytes(pages);
    var k := FirstFit(rs, sz);
    if k < |rs| {
      assert rs[k].Fits(sz);
      if rs[k].size == sz {
        BytesAfterRemoval(rs, k, a);
      } else {
        BytesAfterShrink(rs, k, sz, a);
      }
      assert rs[k].addr <= a < rs[k].addr + sz ==> rs[k].Covers(a) && rs[k].kind == USABLE;
    }
  }

  /** Region k is the first that is usable, of type 1 in the firmware's map, and has so many bytes. */
  ghost predicate Answers(rs: seq<Region>, k: nat, bytes: nat)
    requires k < |rs|
  {
    && rs[k].kind == 1 && rs[k].size >= bytes
    && forall i :: 0 <= i < k && rs[i].kind == 1 ==> rs[i].size < bytes
  }

  /** What alloc_pages answers: the start of the first such region, the bytes being counted in 32 bits, or 0 if
      there is none. */
  lemma AnswersFirstFit(rs: seq<Region>, pages: nat)
    ensures var bytes := pages * 0x1000 % 0x1_0000_0000;
            || (Allocated(rs, pages) == (0, rs) && forall r :: r in rs && r.kind == 1 ==> r.size < bytes)
            || exists k :: 0 <= k < |rs| && Answers(rs, k, bytes) && Allocated(rs, pages).0 == rs[k].addr
  {
    hide TakeFrom;
    var k := FirstFit(rs, RequestBytes(pages));
    if k < |rs| { assert Answers(rs, k, RequestBytes(pages)); }
  }

  lemma AllocKeepsDisjoint(rs: seq<Region>, pages: nat)
    requires AllDisjoint(rs)
    ensures AllDisjoint(Allocated(rs, pages).1)
  {
    var sz := RequestBytes(pages);
    var k := FirstFit(rs, sz);
    if k < |rs| && rs[k].size != sz {
      var rs' := TakeFrom(rs, k, sz);
      forall i, j | 0 <= i < j < |rs'|
        ensures Disjoint(rs'[i], rs'[j])
      {
        assert Disjoint(rs[i], rs[j]);
      }
    }
  }

  lemma TotalTaken(rs: seq<Region>, k: nat, sz: nat)
    requires k < |rs| && sz <= rs[k].size
    ensures Total(TakeFrom(rs, k, sz)) == Total(rs) - sz
  {
    TotalSplit(rs, k);
    if rs[k].size == sz {
      TotalConcat(rs[..k], rs[k + 1..]);
    } else {
      TotalUpdate(rs, k, Region(rs[k].addr + sz, rs[k].size - sz, rs[k].kind));
    }
  }

  lemma AllocConserves(rs: seq<Region>, pages: nat)
    ensures var found := FirstFit(rs, RequestBytes(pages)) < |rs|;
            Total(Allocated(rs, pages).1) == Total(rs) - if found then RequestBytes(pages) else 0
  {
    var k := FirstFit(rs, RequestBytes(pages));
    if k < |rs| {
      assert rs[k].Fits(RequestBytes(pages));
      TotalTaken(rs, k, RequestBytes(pages));
    }
  }

  /** The 32-bit product is the number of bytes asked for exactly below 2^20 pages. */
  lemma RequestIsExact(pages: nat)
    ensures RequestBytes(pages) == pages * PAGE_SIZE <==> pages < 0x10_0000
  {
  }

  /** At 2^20 pages the product wraps to nothing: an address comes back, but no byte is taken. */
  lemma WrappedRequestTakesNothing(rs: seq<Region>)
    requires 0 < |rs| && rs[0].kind == USABLE && 0 < rs[0].size
    ensures Allocated(rs, 0x10_0000) == (rs[0].addr, rs)
  {
    assert RequestBytes(0x10_0000) == 0;
    assert rs[0 := Region(rs[0].addr + 0, rs[0].size - 0, rs[0].kind)] == rs;
  }

  lemma FreeAddsItsBytes(rs: seq<Region>, addr: nat, size: nat, a: nat)
    ensures Listed(Freed(rs, addr, size), a) <==> Listed(rs, a) || addr <= a < addr + size
    ensures Total(Freed(rs, addr, size)) == Total(rs) + size
  {
    var k := FirstTouching(rs, addr, size);
    var rs' := Freed(rs, addr, size);
    if k == |rs| {
      assert rs'[0].Covers(a) <==> addr <= a < addr + size;
      assert forall i :: 0 <= i < |rs| ==> rs'[i + 1] == rs[i];
      assert Total(rs') == size + Total(rs) by { assert rs'[1..] == rs; }
    } else {
      assert rs'[k].Covers(a) <==> rs[k].Covers(a) || addr <= a < addr + size;
      assert forall i :: 0 <= i < |rs| && i != k ==> rs'[i] == rs[i];
      TotalUpdate(rs, k, Merged(rs[k], addr, size));
    }
  }

  lemma Unlisted(r: Region, addr: nat, size: nat)
    requires forall a :: addr <= a < addr + size ==> !r.Covers(a)
    ensures Disjoint(r, Region(addr, size, USABLE))
  {
    if r.size != 0 && size != 0 {
      assert !r.Covers(addr);
      if addr < r.addr { assert addr + size > r.addr ==> r.Covers(r.addr); }
    }
  }

  lemma FreeKeepsDisjoint(rs: seq<Region>, addr: nat, size: nat)
    requires AllDisjoint(rs)
    requires forall a :: addr <= a < addr + size ==> !Listed(rs, a)
    ensures AllDisjoint(Freed(rs, addr, size))
  {
    var k := FirstTouching(rs, addr, size);
    var rs' := Freed(rs, addr, size);
    forall i | 0 <= i < |rs|
      ensures Disjoint(rs[i], Region(addr, size, USABLE))
    {
      assert forall a: nat :: rs[i].Covers(a) ==> Listed(rs, a);
      Unlisted(rs[i], addr, size);
    }
    if k < |rs| {
      forall i, j | 0 <= i < j < |rs'|
        ensures Disjoint(rs'[i], rs'[j])
      {
        assert Disjoint(rs[i], rs[j]);
        assert Disjoint(rs[i], Region(addr, size, USABLE)) && Disjoint(rs[j], Region(addr, size, USABLE));
      }
    }
  }

  /** free_pages does not look at the type of the region it extends, so freed bytes become
      usable again exactly when the first region they touch, if any, is usable. */
  lemma FreedBytesAreUsableIff(rs: seq<Region>, addr: nat, size: nat)
    requires 0 < size
    requires forall a :: addr <= a < addr + size ==> !Listed(rs, a)
    ensures (forall a :: addr <= a < addr + size ==> Usable(Freed(rs, addr, size), a))
            <==> var k := FirstTouching(rs, addr, size); k == |rs| || rs[k].kind == USABLE
  {
    var k := FirstTouching(rs, addr, size);
    var rs' := Freed(rs, addr, size);
    if k == |rs| {
      forall a | addr <= a < addr + size
        ensures Usable(rs', a)
      {
        assert rs'[0].Covers(a);
      }
    } else if rs[k].kind == USABLE {
      forall a | addr <= a < addr + size
        ensures Usable(rs', a)
      {
        assert rs'[k].Covers(a);
      }
    } else {
      assert !Listed(rs, addr);
      assert forall i :: 0 <= i < |rs| && i != k ==> rs'[i] == rs[i];
      assert forall i :: 0 <= i < |rs| ==> !rs[i].Covers(addr);
      assert !Usable(rs', addr);
    }
  }

  /** The page count that spawn_process and receive pass to free_pages is taken as bytes:
      freeing what was allocated restores the total only for an empty allocation. */
  lemma FreeingByPageCountLeaks(rs: seq<Region>, pages: nat)
    requires pages < 0x10_0000 && FirstFit(rs, RequestBytes(pages)) < |rs|
    ensures var (addr, rs') := Allocated(rs, pages);
            && Total(Freed(rs', addr, pages)) == Total(rs) - 0xfff * pages
            && Total(Freed(rs', addr, pages * PAGE_SIZE)) == Total(rs)
  {
    var (addr, rs') := Allocated(rs, pages);
    RequestIsExact(pages);
    AllocConserves(rs, pages);
    FreeAddsItsBytes(rs', addr, pages, 0);
    FreeAddsItsBytes(rs', addr, pages * PAGE_SIZE, 0);
  }

  // ----- runs: any mix of allocations and frees -----

  datatype Op = Alloc(pages: nat) | Free(addr: nat, size: nat)

  function Step(rs: seq<Region>, op: Op): seq<Region> {
    match op
    case Alloc(pages) => Allocated(rs, pages).1
    case Free(addr, size) => Freed(rs, addr, size)
  }

  function Run(rs: seq<Region>, ops: seq<Op>): seq<Region>
    decreases |ops|
  {
    if ops == [] then rs else Run(Step(rs, ops[0]), ops[1..])
  }

  /** Every free of the run is of a range that the list has no byte of at that time. */
  ghost predicate FreesUnlisted(rs: seq<Region>, ops: seq<Op>)
    decreases |ops|
  {
    ops != [] ==>
      && (ops[0].Free? ==> forall a :: ops[0].addr <= a < ops[0].addr + ops[0].size ==> !Listed(rs, a))
      && FreesUnlisted(Step(rs, ops[0]), ops[1..])
  }

  /** The operation takes byte a off the list and returns it to its caller. */
  ghost predicate HandsOut(rs: seq<Region>, op: Op, a: nat) {
    && op.Alloc? && FirstFit(rs, RequestBytes(op.pages)) < |rs|
    && var addr := Allocated(rs, op.pages).0; addr <= a < addr + RequestBytes(op.pages)
  }

  ghost predicate GivesBack(op: Op, a: nat) {
    op.Free? && op.addr <= a < op.addr + op.size
  }

  function TakenBy(rs: seq<Region>, op: Op): nat {
    if op.Alloc? && FirstFit(rs, RequestBytes(op.pages)) < |rs| then RequestBytes(op.pages) else 0
  }

  function TakenIn(rs: seq<Region>, ops: seq<Op>): nat
    decreases |ops|
  {
    if ops == [] then 0 else TakenBy(rs, ops[0]) + TakenIn(Step(rs, ops[0]), ops[1..])
  }

  function GivenIn(ops: seq<Op>): nat {
    if ops == [] then 0 else (if ops[0].Free? then ops[0].size else 0) + GivenIn(ops[1..])
  }

  /** One operation: where each byte is afterwards, and how many there are. */
  lemma StepBytes(rs: seq<Region>, op: Op, a: nat)
    requires AllDisjoint(rs)
    ensures Listed(Step(rs, op), a) <==> (Listed(rs, a) && !HandsOut(rs, op, a)) || GivesBack(op, a)
    ensures HandsOut(rs, op, a) ==> Usable(rs, a) && Listed(rs, a)
    ensures Total(Step(rs, op)) + TakenBy(rs, op) == Total(rs) + if op.Free? then op.size else 0
  {
    hide FirstFit, AllDisjoint, Total;
    match op
    case Alloc(pages) =>
      AllocTakesItsBytes(rs, pages, a);
      AllocConserves(rs, pages);
      assert Usable(rs, a) ==> Listed(rs, a);
    case Free(addr, size) =>
      FreeAddsItsBytes(rs, addr, size, a);
  }

  lemma StepDisjoint(rs: seq<Region>, op: Op)
    requires AllDisjoint(rs) && FreesUnlisted(rs, [op])
    ensures AllDisjoint(Step(rs, op))
  {
    match op
    case Alloc(pages) => AllocKeepsDisjoint(rs, pages);
    case Free(addr, size) => FreeKeepsDisjoint(rs, addr, size);
  }

  /** Over every run the regions stay pairwise disjoint, and the bytes listed change by exactly those
      handed out and given back. */
  lemma {:induction false} RunConserves(rs: seq<Region>, ops: seq<Op>)
    requires AllDisjoint(rs) && FreesUnlisted(rs, ops)
    ensures AllDisjoint(Run(rs, ops))
    ensures Total(Run(rs, ops)) + TakenIn(rs, ops) == Total(rs) + GivenIn(ops)
    decreases |ops|
  {
    hide AllDisjoint, Step, TakenBy;
    if ops != [] {
      StepDisjoint(rs, ops[0]);
      StepBytes(rs, ops[0], 0);
      RunConserves(Step(rs, ops[0]), ops[1..]);
    }
  }

  /** A byte that is not listed stays so, and is not handed out, until it is given back. */
  lemma {:induction false} UnlistedStays(rs: seq<Region>, ops: seq<Op>, a: nat, j: nat)
    requires AllDisjoint(rs) && FreesUnlisted(rs, ops) && !Listed(rs, a) && j <= |ops|
    requires forall k :: 0 <= k < j ==> !GivesBack(ops[k], a)
    ensures !Listed(Run(rs, ops[..j]), a)
    ensures j < |ops| ==> !HandsOut(Run(rs, ops[..j]), ops[j], a)
    decreases |ops|
  {
    hide AllDisjoint, Step, Listed, HandsOut, GivesBack;
    if ops != [] {
      StepBytes(rs, ops[0], a);
      if j > 0 {
        assert ops[..j][0] == ops[0] && ops[..j][1..] == ops[1..][..j - 1];
        StepDisjoint(rs, ops[0]);
        UnlistedStays(Step(rs, ops[0]), ops[1..], a, j - 1);
      }
    }
  }

  /** No byte is handed out twice without being given back in between. */
  lemma {:induction false} NoByteTwice(rs: seq<Region>, ops: seq<Op>, i: nat, j: nat, a: nat)
    requires AllDisjoint(rs) && FreesUnlisted(rs, ops) && i < j < |ops|
    requires HandsOut(Run(rs, ops[..i]), ops[i], a) && HandsOut(Run(rs, ops[..j]), ops[j], a)
    ensures exists k :: i < k < j && GivesBack(ops[k], a)
    decreases |ops|
  {
    hide AllDisjoint, Step, Listed, HandsOut, GivesBack;
    var rest := ops[1..];
    StepDisjoint(rs, ops[0]);
    assert ops[..j][0] == ops[0] && ops[..j][1..] == rest[..j - 1];
    if i > 0 {
      assert ops[..i][0] == ops[0] && ops[..i][1..] == rest[..i - 1];
      NoByteTwice(Step(rs, ops[0]), rest, i - 1, j - 1, a);
      var k :| i - 1 < k < j - 1 && GivesBack(rest[k], a);
      assert ops[k + 1] == rest[k];
    } else {
      StepBytes(rs, ops[0], a);
      assert ops[0].Alloc? && !GivesBack(ops[0], a) by { AllocGivesNothing(rs, ops[0], a); }
      if forall k :: i < k < j ==> !GivesBack(ops[k], a) {
        forall k | 0 <= k < j - 1
          ensures !GivesBack(rest[k], a)
        {
          assert rest[k] == ops[k + 1];
        }
        UnlistedStays(Step(rs, ops[0]), rest, a, j - 1);
        assert false;
      }
    }
  }

  lemma AllocGivesNothing(rs: seq<Region>, op: Op, a: nat)
    requires HandsOut(rs, op, a)
    ensures op.Alloc? && !GivesBack(op, a)
  {
  }

  // ----- a list and what has been handed out of it -----

  datatype State = State(free: seq<Region>, out: seq<Region>)

  /** Every byte is on the list at most once or handed out at most once, never both. */
  ghost predicate Exclusive(s: State) {
    && AllDisjoint(s.free)
    && AllDisjoint(s.out)
    && (forall i, a :: 0 <= i < |s.out| && s.out[i].Covers(a) ==> !Listed(s.free, a))
  }

  lemma AllocExclusive(s: State, pages: nat)
    requires Exclusive(s) && pages < 0x10_0000
    requires FirstFit(s.free, RequestBytes(pages)) < |s.free|
    ensures var (addr, rest) := Allocated(s.free, pages);
            Exclusive(State(rest, s.out + [Region(addr, pages * PAGE_SIZE, USABLE)]))
  {
    var (addr, rest) := Allocated(s.free, pages);
    var r := Region(addr, pages * PAGE_SIZE, USABLE);
    var s' := State(rest, s.out + [r]);
    RequestIsExact(pages);
    AllocKeepsDisjoint(s.free, pages);
    forall a: nat
      ensures Listed(s'.free, a) ==> Listed(s.free, a)
      ensures r.Covers(a) ==> Listed(s.free, a) && !Listed(s'.free, a)
    {
      AllocTakesItsBytes(s.free, pages, a);
      if Usable(s.free, a) { assert Listed(s.free, a); }
    }
    forall i | 0 <= i < |s.out|
      ensures Disjoint(s.out[i], r)
    {
      assert forall a: nat :: r.Covers(a) ==> !s.out[i].Covers(a);
      Unlisted(s.out[i], r.addr, r.size);
    }
  }
}
