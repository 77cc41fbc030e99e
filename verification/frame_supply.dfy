/** The page manager seen as a supply of page frames. */
module FrameSupply {
  import opened PageManager

  const FRAME_LIMIT := 0x100_0000_0000    // 52-bit physical addresses

  /** Usable memory comes in whole frames, none of them at address 0. */
  ghost predicate Paged(rs: seq<Region>) {
    && AllDisjoint(rs)
    && (forall i :: 0 <= i < |rs| && rs[i].kind == USABLE ==> WholeFrames(rs[i]))
  }

  ghost predicate WholeFrames(r: Region) {
    && r.addr % PAGE_SIZE == 0 && r.size % PAGE_SIZE == 0
    && 0 < r.addr && r.addr + r.size <= FRAME_LIMIT * PAGE_SIZE
  }

  ghost predicate FreeFrame(rs: seq<Region>, f: nat) {
    Usable(rs, f * PAGE_SIZE)
  }

  function FreeCount(rs: seq<Region>): nat {
    if rs == [] then 0
    else (if rs[0].kind == USABLE then rs[0].size / PAGE_SIZE else 0) + FreeCount(rs[1..])
  }

  lemma {:induction false} CountSplit(rs: seq<Region>, k: nat)
    requires k < |rs|
    ensures FreeCount(rs) == FreeCount(rs[..k]) + FreeCount([rs[k]]) + FreeCount(rs[k + 1..])
  {
    if k == 0 {
      assert rs[..0] == [];
    } else {
      CountSplit(rs[1..], k - 1);
      assert rs[..k][1..] == rs[1..][..k - 1] && rs[1..][k..] == rs[k + 1..];
    }
  }

  lemma {:induction false} CountConcat(rs: seq<Region>, ss: seq<Region>)
    ensures FreeCount(rs + ss) == FreeCount(rs) + FreeCount(ss)
  {
    if rs == [] {
      assert rs + ss == ss;
    } else {
      CountConcat(rs[1..], ss);
      assert (rs + ss)[1..] == rs[1..] + ss;
    }
  }

  lemma CountTaken(rs: seq<Region>, k: nat, n: nat)
    requires k < |rs| && rs[k].kind == USABLE && rs[k].size % PAGE_SIZE == 0 && n * PAGE_SIZE <= rs[k].size
    ensures FreeCount(TakeFrom(rs, k, n * PAGE_SIZE)) == FreeCount(rs) - n
  {
    var t := TakeFrom(rs, k, n * PAGE_SIZE);
    CountSplit(rs, k);
    if rs[k].size == n * PAGE_SIZE {
      CountConcat(rs[..k], rs[k + 1..]);
    } else {
      CountSplit(t, k);
      assert t[..k] == rs[..k] && t[k + 1..] == rs[k + 1..];
    }
  }

  lemma TakenStaysPaged(rs: seq<Region>, k: nat, n: nat)
    requires Paged(rs) && k < |rs| && rs[k].kind == USABLE && n * PAGE_SIZE <= rs[k].size
    ensures forall r :: r in TakeFrom(rs, k, n * PAGE_SIZE) && r.kind == USABLE ==> WholeFrames(r)
  {
    hide AllDisjoint;
    var rest := TakeFrom(rs, k, n * PAGE_SIZE);
    assert WholeFrames(rs[k]);
    forall i | 0 <= i < |rest| && rest[i].kind == USABLE
      ensures WholeFrames(rest[i])
    {
      if rs[k].size == n * PAGE_SIZE {
        assert rest[i] == rs[if i < k then i else i + 1];
      }
    }
  }

  /** Memory stays in whole frames, and a successful allocation of n pages hands out n
      consecutive free frames and no other. */
  lemma AllocHandsOutFrames(rs: seq<Region>, n: nat)
    requires Paged(rs) && 0 < n < 0x10_0000
    ensures var (a, rest) := Allocated(rs, n);
            && Paged(rest)
            && (a == 0 ==> rest == rs)
            && (a != 0 ==>
                  && a % PAGE_SIZE == 0
                  && 0 < a / PAGE_SIZE <= FRAME_LIMIT - n
                  && FreeCount(rest) == FreeCount(rs) - n)
    ensures var (a, rest) := Allocated(rs, n);
            a != 0 ==> forall f: nat ::
                && (FreeFrame(rest, f) <==> FreeFrame(rs, f) && !(a / PAGE_SIZE <= f < a / PAGE_SIZE + n))
                && (a / PAGE_SIZE <= f < a / PAGE_SIZE + n ==> FreeFrame(rs, f))
  {
    hide FirstFit, FreeCount, Usable, AllDisjoint, TakeFrom;
    var (a, rest) := Allocated(rs, n);
    RequestIsExact(n);
    var k := FirstFit(rs, RequestBytes(n));
    AllocKeepsDisjoint(rs, n);
    if k < |rs| {
      assert rs[k].Fits(n * PAGE_SIZE) && WholeFrames(rs[k]);
      CountTaken(rs, k, n);
      TakenStaysPaged(rs, k, n);
      forall f: nat
        ensures FreeFrame(rest, f) <==> FreeFrame(rs, f) && !(a / PAGE_SIZE <= f < a / PAGE_SIZE + n)
        ensures a / PAGE_SIZE <= f < a / PAGE_SIZE + n ==> FreeFrame(rs, f)
      {
        AllocTakesItsBytes(rs, n, f * PAGE_SIZE);
      }
    }
  }

  /** The byte count given back comes in whole pages, or goes to a region that is never handed out. */
  ghost predicate FreedInPages(rs: seq<Region>, addr: nat, size: nat) {
    size % PAGE_SIZE == 0 || var k := FirstTouching(rs, addr, size); k < |rs| && rs[k].kind != USABLE
  }

  /** Giving back bytes that begin a frame leaves memory in whole frames exactly in those cases. */
  lemma FreedStaysPagedIff(rs: seq<Region>, addr: nat, size: nat)
    requires Paged(rs) && 0 < addr && addr % PAGE_SIZE == 0 && addr + size <= FRAME_LIMIT * PAGE_SIZE
    requires forall a :: addr <= a < addr + size ==> !Listed(rs, a)
    ensures Paged(Freed(rs, addr, size)) <==> FreedInPages(rs, addr, size)
  {
    hide AllDisjoint, Listed;
    var k := FirstTouching(rs, addr, size);
    var rs' := Freed(rs, addr, size);
    FreeKeepsDisjoint(rs, addr, size);
    if k == |rs| {
      assert rs'[0] == Region(addr, size, USABLE);
      assert forall i :: 0 <= i < |rs| ==> rs'[i + 1] == rs[i];
      if FreedInPages(rs, addr, size) {
        forall i | 0 <= i < |rs'| && rs'[i].kind == USABLE
          ensures WholeFrames(rs'[i])
        {
          if i > 0 { assert rs'[i] == rs[i - 1]; }
        }
      }
    } else {
      assert rs'[k] == Merged(rs[k], addr, size);
      assert forall i :: 0 <= i < |rs| && i != k ==> rs'[i] == rs[i];
      if rs[k].kind == USABLE {
        assert WholeFrames(rs[k]);
        assert WholeFrames(rs'[k]) <==> size % PAGE_SIZE == 0;
      }
    }
  }

  /** A frame that becomes usable by a free begins among the bytes given back. */
  lemma FreedFrames(rs: seq<Region>, addr: nat, size: nat, f: nat)
    requires FreeFrame(Freed(rs, addr, size), f)
    ensures FreeFrame(rs, f) || addr <= f * PAGE_SIZE < addr + size
  {
    var k := FirstTouching(rs, addr, size);
    var rs' := Freed(rs, addr, size);
    var i :| 0 <= i < |rs'| && rs'[i].Covers(f * PAGE_SIZE) && rs'[i].kind == USABLE;
    if k == |rs| {
      if i > 0 { assert rs'[i] == rs[i - 1]; }
    } else if i != k {
      assert rs'[i] == rs[i];
    } else {
      assert rs[k].Covers(f * PAGE_SIZE) || addr <= f * PAGE_SIZE < addr + size;
    }
  }

  /** One page can be had exactly while one is counted. */
  lemma {:induction false} OnePageIsAvailable(rs: seq<Region>)
    requires Paged(rs)
    ensures Allocated(rs, 1).0 != 0 <==> FreeCount(rs) > 0
  {
    assert RequestBytes(1) == PAGE_SIZE;
    FirstFitMissing(rs);
    var k := FirstFit(rs, PAGE_SIZE);
    if k < |rs| {
      assert rs[k].Fits(PAGE_SIZE) && WholeFrames(rs[k]);
      CountSplit(rs, k);
    }
  }

  lemma {:induction false} FirstFitMissing(rs: seq<Region>)
    ensures FirstFit(rs, PAGE_SIZE) == |rs| ==> FreeCount(rs) == 0
  {
    if rs != [] { FirstFitMissing(rs[1..]); }
  }
}
