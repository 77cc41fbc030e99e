/** What spawn_process and spawn_thread write into the frames of a new program. */
module ProcessImages {
  import opened Bytes
  import opened Options
  import opened PageTables
  import opened PageManager
  import opened FrameSupply
  import opened PagingUnit
  import opened Workspaces
  import opened AddressSpaces
  import opened Loader
  import opened PagerState

  const USER_CODE_SELECTOR := 0x1B     // USER_CS | 3
  const USER_DATA_SELECTOR := 0x23     // USER_DS | 3
  /** Stack pointer of a thread that has not run, and the slots its first iretq pops. */
  const FIRST_RSP := USPACE_TOP - 0x50
  const FRAME_SLOT := 0x1F6

  /** Bytes 0xFB0 .. 0xFD7 of frame f: entry point, selectors, flags, user stack. */
  ghost predicate FrameBuilt(m: Mem, f: nat, func: nat, flags: nat) {
    && Entry(m, f, 0xFB0 / 8) == func
    && Entry(m, f, 0xFB8 / 8) == 0x1B
    && Entry(m, f, 0xFC0 / 8) == flags
    && Entry(m, f, 0xFC8 / 8) == 0x7FFF_FFFF_F000
    && Entry(m, f, 0xFD0 / 8) == 0x23
  }

  /** Apart from the run of count frames from base on and the scratch page's table, no frame changed. */
  ghost predicate OnlyRunWritten(m: Mem, m': Mem, base: nat, count: nat) {
    && SameWalks(m, m')
    && forall f: nat :: f != KPT0_FRAME && !(base <= f < base + count) ==> PageAt(m', f) == PageAt(m, f)
  }

  lemma StoresBuildFrame(m: Mem, f: nat, r: nat, func: nat, flags: nat)
    requires f != KPT0_FRAME && r < WORD_LIMIT && func < WORD_LIMIT && flags < WORD_LIMIT
    ensures var m' := StackStores(PokeEntry(m, KPT0_FRAME, 0, r), f, func, flags);
            && FrameBuilt(m', f, func, flags)
            && forall g: nat :: g != KPT0_FRAME && g != f ==> PageAt(m', g) == PageAt(m, g)
  {
    hide PokeEntry, Entry, PageAt;
    var m0 := PokeEntry(m, KPT0_FRAME, 0, r);
    var m1 := PokeEntry(m0, f, FRAME_SLOT, func);
    var m2 := PokeEntry(m1, f, FRAME_SLOT + 1, USER_CODE_SELECTOR);
    var m3 := PokeEntry(m2, f, FRAME_SLOT + 2, flags);
    var m4 := PokeEntry(m3, f, FRAME_SLOT + 3, USPACE_TOP - 0x1000);
    PokeEntryEffect(m, KPT0_FRAME, 0, r);
    PokeEntryEffect(m0, f, FRAME_SLOT, func);
    PokeEntryEffect(m1, f, FRAME_SLOT + 1, USER_CODE_SELECTOR);
    PokeEntryEffect(m2, f, FRAME_SLOT + 2, flags);
    PokeEntryEffect(m3, f, FRAME_SLOT + 3, USPACE_TOP - 0x1000);
    PokeEntryEffect(m4, f, FRAME_SLOT + 4, USER_DATA_SELECTOR);
  }

  /** The five stores of spawn_thread. */
  function StackStores(m: Mem, f: nat, func: nat, flags: nat): Mem {
    var m1 := PokeEntry(m, f, FRAME_SLOT, func);
    var m2 := PokeEntry(m1, f, FRAME_SLOT + 1, USER_CODE_SELECTOR);
    var m3 := PokeEntry(m2, f, FRAME_SLOT + 2, flags);
    var m4 := PokeEntry(m3, f, FRAME_SLOT + 3, USPACE_TOP - 0x1000);
    PokeEntry(m4, f, FRAME_SLOT + 4, USER_DATA_SELECTOR)
  }

  /** Lay down the frame that the first switch to a thread returns through, in frame f. */
  method BuildFrame(m: Mmu, pa: nat, func: nat, flags: nat, ghost f: nat)
    requires m.Valid() && m.Coherent() && pa == f * 0x1000 && f < PHYS_FRAMES && !IsTable(m.tables, f)
    requires func < WORD_LIMIT && flags < WORD_LIMIT
    modifies m`mem, m`tlb, m`stale
    ensures m.Valid() && m.Coherent() && m.stale == old(m.stale) && CachedFrom(old(m.tlb), m.tlb)
    ensures m.Snap() == old(m.Snap()).(mem := m.mem)
    ensures FrameBuilt(m.mem, f, func, flags) && OnlyRunWritten(old(m.mem), m.mem, f, 1)
  {
    hide Walk, Sound, PokeEntry, FrameBuilt, Maps, IsTable, Mmu.Valid, Mmu.Coherent, StackStores, Reserved;
    ghost var m0 := m.mem;
    TagBound(f);
    NotKpt0(m, f);
    PointScratch(m, pa, f);
    StoreScratchWord(m, FRAME_SLOT, func, f);
    StoreScratchWord(m, FRAME_SLOT + 1, USER_CODE_SELECTOR, f);
    StoreScratchWord(m, FRAME_SLOT + 2, flags, f);
    StoreScratchWord(m, FRAME_SLOT + 3, USPACE_TOP - 0x1000, f);
    StoreScratchWord(m, FRAME_SLOT + 4, USER_DATA_SELECTOR, f);
    assert m.mem == StackStores(PokeEntry(m0, KPT0_FRAME, 0, pa + 3), f, func, flags) by {
      StackStoresAre(PokeEntry(m0, KPT0_FRAME, 0, pa + 3), f, func, flags);
    }
    StoresBuildFrame(m0, f, pa + 3, func, flags);
  }

  lemma StackStoresAre(m: Mem, f: nat, func: nat, flags: nat)
    ensures var m2 := PokeEntry(PokeEntry(m, f, FRAME_SLOT, func), f, FRAME_SLOT + 1, USER_CODE_SELECTOR);
            var m4 := PokeEntry(PokeEntry(m2, f, FRAME_SLOT + 2, flags), f, FRAME_SLOT + 3, USPACE_TOP - 0x1000);
            StackStores(m, f, func, flags) == PokeEntry(m4, f, FRAME_SLOT + 4, USER_DATA_SELECTOR)
  {
    hide PokeEntry;
  }

  lemma TagBound(f: nat)
    requires f < PHYS_FRAMES
    ensures f * 0x1000 + 3 < WORD_LIMIT
  {
  }

  lemma NotKpt0(m: Mmu, f: nat)
    requires m.Valid() && !IsTable(m.tables, f)
    ensures f != KPT0_FRAME
  {
    hide Walk, Tree, FreeFrame, Paged, Maps;
    assert m.tables == m.Snap().tables;
  }

  // ----- the two kinds of space a program gets -----

  /** No frame with an owner changed its bytes. */
  ghost predicate OwnedKept(owner: map<nat, Owner>, s: Snapshot, t: Snapshot) {
    forall f :: f in owner ==> PageAt(t.mem, f) == PageAt(s.mem, f)
  }

  /** Writing into frames that were free a moment ago changes no owned frame. */
  lemma FreshRunNotOwned(lists: Lists, owner: map<nat, Owner>, s: Snapshot, t: Snapshot, base: nat, n: nat,
                         m: Mem, b: nat, c: nat)
    requires Sound(s) && Owned(lists, owner, s) && HandedOut(s, t, base, n)
    requires OnlyRunWritten(t.mem, m, b, c) && base <= b && b + c <= base + n
    ensures OwnedKept(owner, s, t.(mem := m))
  {
    hide Walk, Tree, Paged, FreeCount, PageAt, FreeFrame;
    assert IsTable(s.tables, KPT0_FRAME) by { assert KeyOf(SCRATCH, 0) in s.tables; }
    forall f | f in owner
      ensures f != KPT0_FRAME && !(b <= f < b + c)
    {
      assert !FreeFrame(s.regions, f);
    }
  }

  function StackExtent(pg: nat): Extent {
    Extent(USPACE_TOP - 0x2000, pg, 0x2000, USER_FLAGS)
  }

  /** The user stack of a new thread: two frames, the upper one holding its first return frame. */
  method NewStack(p: Pager, func: nat, flags: nat) returns (ws: Workspace?, pg: nat)
    requires p.Valid() && func < WORD_LIMIT && flags < WORD_LIMIT
    modifies p`spaces, p`stacks, p`owner, p.mmu, p.mmu.pages, p.mmu.pages.repr
    ensures p.Valid() && p.mmu.pages.repr == old(p.mmu.pages.repr)
    ensures pg == Allocated(old(p.mmu.pages.Regions()), 2).0 && (ws == null <==> pg == 0)
    ensures p.mmu.pages.Regions() == Allocated(old(p.mmu.pages.Regions()), 2).1
    ensures ws == null ==> p.spaces == old(p.spaces) && p.stacks == old(p.stacks) && p.owner == old(p.owner)
    ensures ws == null ==> p.mmu.Snap() == old(p.mmu.Snap()) && p.mmu.tlb == old(p.mmu.tlb)
    ensures ws != null ==>
              && fresh(ws) && p.spaces == old(p.spaces) + {ws} && p.stacks == old(p.stacks) + {ws}
              && ws.extents == [StackExtent(pg)] && pg % 0x1000 == 0
              && FrameBuilt(p.mmu.mem, pg / 0x1000 + 1, func, flags)
    ensures KeepsOwners(old(p.owner), p.owner) && OwnedKept(old(p.owner), old(p.mmu.Snap()), p.mmu.Snap())
  {
    hide Walk, Sound, Consistent, HandedOut, FreeList.Regions, FreeList.Valid, Allocated, Mmu.Coherent,
      SpaceFits, Mmu.Snap, Mmu.Valid, Mmu.Cached, FramesFor, FrameBuilt, Pager.Valid, Pager.Lists, OnlyRunWritten,
      KeepsOwners, OwnedKept, IsTable, Owned, LowUnseen, CachedFrom;
    ghost var s, lists, owner := p.mmu.Snap(), p.Lists(), p.owner;
    PagerParts(p);
    StackFits();
    ws, pg := p.NewSpace(USPACE_TOP - 0x2000, 2, true);
    SnapParts(p.mmu);
    if ws == null {
      NothingKept(owner, s, p.mmu.Snap());
      return;
    }
    ghost var t, tlb, base := p.mmu.Snap(), p.mmu.tlb, pg / 0x1000;
    StackFrames(t, base, pg);
    PagerParts(p);
    BuildFrame(p.mmu, pg + 0x1000, func, flags, base + 1);
    StillValid(p, t, tlb, base + 1, 1);
    FreshRunNotOwned(lists, owner, s, t, base, 2, p.mmu.mem, base + 1, 1);
    SnapParts(p.mmu);
  }

  lemma StackFits()
    ensures SpaceFits(USPACE_TOP - 0x2000, 2, true)
  {
  }

  lemma StackFrames(t: Snapshot, base: nat, pg: nat)
    requires FramesFor(t, base, 2) && base == pg / 0x1000 && pg % 0x1000 == 0
    ensures base + 1 < PHYS_FRAMES && !IsTable(t.tables, base + 1) && pg + 0x1000 == (base + 1) * 0x1000
    ensures FramesFor(t, base + 1, 1)
  {
    hide IsTable;
  }

  lemma SnapParts(m: Mmu)
    ensures m.Snap() == Snapshot(m.mem, m.tables, m.pages.Regions())
  {
    hide FreeList.Regions;
  }

  lemma PagerParts(p: Pager)
    requires p.Valid()
    ensures p.mmu.Valid() && p.mmu.Coherent() && p.mmu.stale == {}
    ensures Owned(p.Lists(), p.owner, p.mmu.Snap()) && Sound(p.mmu.Snap())
    ensures Consistent(p.Lists(), p.stacks, p.owner, p.mmu.Snap(), p.codeWs, p.stackWs)
    ensures p.codeWs == null ==> LowUnseen(p.mmu.tlb)
  {
    hide Owned, Mmu.Coherent, InPlace, View, AllGood, Sound, Mmu.Snap, FreeList.Valid, Pager.Lists, LowUnseen, CoverLow,
      UserOpen, AllOpen;
  }

  lemma NothingKept(owner: map<nat, Owner>, s: Snapshot, t: Snapshot)
    requires t.mem == s.mem
    ensures KeepsOwners(owner, owner) && OwnedKept(owner, s, t)
  {
  }

  /** Stores to frames that are no tables leave what the tables hang from. */
  lemma RunHangs(t: Snapshot, m: Mem, b: nat, c: nat)
    requires Sound(t) && FramesFor(t, b, c) && OnlyRunWritten(t.mem, m, b, c)
    ensures Hangs(t, t.(mem := m), {})
  {
    hide Sound, Hangs, PageAt, IsTable, SameWalks;
    StoresHang(t, m);
  }

  lemma RunWalks(m: Mem, m': Mem, b: nat, c: nat)
    requires OnlyRunWritten(m, m', b, c)
    ensures SameWalks(m, m')
  {
    hide SameWalks, PageAt;
  }

  /** Stores that retranslate at most the scratch page leave the machine consistent. */
  lemma StillValid(p: Pager, t: Snapshot, tlb: map<nat, nat>, b: nat, c: nat)
    requires p.mmu.Valid() && p.mmu.Coherent() && p.mmu.stale == {}
    requires Consistent(p.Lists(), p.stacks, p.owner, t, p.codeWs, p.stackWs)
    requires p.mmu.Snap() == t.(mem := p.mmu.mem) && OnlyRunWritten(t.mem, p.mmu.mem, b, c)
    requires (p.codeWs == null ==> LowUnseen(tlb)) && CachedFrom(tlb, p.mmu.tlb)
    requires Sound(t) && FramesFor(t, b, c)
    ensures p.Valid()
  {
    hide Consistent, Mmu.Valid, Mmu.Coherent, Mmu.Snap, Walk, Pager.Lists, LowUnseen, CachedFrom, OnlyRunWritten, Sound,
      FramesFor, Hangs;
    if p.codeWs == null { StaysUnseen(tlb, p.mmu.tlb); }
    RunHangs(t, p.mmu.mem, b, c);
    assert SameWalks(t.mem, p.mmu.mem) by { RunWalks(t.mem, p.mmu.mem, b, c); }
    StoresKeepConsistent(p.Lists(), p.stacks, p.owner, t, p.mmu.mem, p.codeWs, p.stackWs);
  }

  // ----- a program's image -----

  function RoundUp(n: nat): nat {
    if n % 0x1000 != 0 then n - n % 0x1000 + 0x1000 else n
  }

  /** Pages of the three rounded sections. */
  function ImagePages(csz: nat, dsz: nat, bsz: nat): nat {
    RoundUp(csz) / 0x1000 + RoundUp(dsz) / 0x1000 + RoundUp(bsz) / 0x1000
  }

  /** The extent recorded is exactly the range allocated, each section is rounded up to the next whole page,
      and so the unrounded image fits. */
  lemma ImageExtent(csz: nat, dsz: nat, bsz: nat)
    ensures forall n: nat :: n <= RoundUp(n) < n + 0x1000 && RoundUp(n) % 0x1000 == 0
    ensures (ImagePages(csz, dsz, bsz) + 0x200) * 0x1000 == RoundUp(csz) + RoundUp(dsz) + RoundUp(bsz) + 0x20_0000
    ensures csz + dsz + bsz <= (ImagePages(csz, dsz, bsz) + 0x200) * 0x1000
  {
  }

  function CodeExtent(pbase: nat, pages: nat): Extent {
    Extent(USPACE_BOT, pbase, pages * 0x1000, USER_FLAGS)
  }

  lemma CodeFits(pages: nat)
    requires 0x200 <= pages < 0x10_0000
    ensures SpaceFits(USPACE_BOT, pages, false)
  {
  }

  /** Bytes 0 .. n-1 of the image are in the frames from base on. */
  ghost predicate ImageIn(m: Mem, base: nat, cd: seq<Byte>, ssz: nat, n: nat)
    requires ssz <= |cd|
  {
    forall i: nat :: i < n ==> PageAt(m, FrameAt(base, i))[InPage(i)] == ImageByte(cd, ssz, i)
  }

  lemma LoadedImage(s: Snapshot, t: Snapshot, base: nat, count: nat, cd: seq<Byte>, ssz: nat, n: nat)
    requires Loaded(s, t, base, count, cd, ssz, n)
    ensures t == s.(mem := t.mem) && OnlyRunWritten(s.mem, t.mem, base, count) && ssz <= |cd|
            && ImageIn(t.mem, base, cd, ssz, n)
  {
    hide Walk, PageAt, ImageByte, FrameAt;
  }

  /** A program's code space: the image copied in through the scratch window, after it the zeros of
      the third section, and 0x200 more pages as alloc_pages returned them. */
  method LoadProgram(p: Pager, cd: seq<Byte>, csz: nat, dsz: nat, bsz: nat) returns (ws: Workspace?, pbase: nat)
    requires p.Valid() && csz + dsz <= |cd| && ImagePages(csz, dsz, bsz) + 0x200 < 0x10_0000
    modifies p`spaces, p`stacks, p`owner, p.mmu, p.mmu.pages, p.mmu.pages.repr
    ensures p.Valid() && p.mmu.pages.repr == old(p.mmu.pages.repr)
    ensures var (a, rest) := Allocated(old(p.mmu.pages.Regions()), ImagePages(csz, dsz, bsz) + 0x200);
            pbase == a && p.mmu.pages.Regions() == rest && (ws == null <==> a == 0)
    ensures p.stacks == old(p.stacks)
    ensures ws == null ==> p.spaces == old(p.spaces) && p.owner == old(p.owner)
    ensures ws == null ==> p.mmu.Snap() == old(p.mmu.Snap()) && p.mmu.tlb == old(p.mmu.tlb)
    ensures p.mmu.Snap().tables == old(p.mmu.Snap()).tables
    ensures ws != null ==>
              && fresh(ws) && p.spaces == old(p.spaces) + {ws}
              && ws.extents == [CodeExtent(pbase, ImagePages(csz, dsz, bsz) + 0x200)] && pbase % 0x1000 == 0
              && ImageIn(p.mmu.mem, pbase / 0x1000, cd, csz + dsz, csz + dsz + bsz)
    ensures KeepsOwners(old(p.owner), p.owner) && OwnedKept(old(p.owner), old(p.mmu.Snap()), p.mmu.Snap())
  {
    hide Walk, Sound, Consistent, HandedOut, FreeList.Regions, FreeList.Valid, Allocated, Mmu.Coherent,
      SpaceFits, Mmu.Snap, Mmu.Valid, Mmu.Cached, FramesFor, Pager.Valid, Pager.Lists, OnlyRunWritten,
      KeepsOwners, OwnedKept, IsTable, Owned, Loaded, ImageIn, RoundUp, ImagePages, LowUnseen, CachedFrom;
    ghost var s, lists, owner := p.mmu.Snap(), p.Lists(), p.owner;
    var pages := RoundUp(csz) / 0x1000 + RoundUp(dsz) / 0x1000 + RoundUp(bsz) / 0x1000 + 0x200;
    SumOfPages(csz, dsz, bsz);
    ImageExtent(csz, dsz, bsz);
    PagerParts(p);
    CodeFits(pages);
    ws, pbase := p.NewSpace(USPACE_BOT, pages, false);
    SnapParts(p.mmu);
    if ws == null {
      NothingKept(owner, s, p.mmu.Snap());
      return;
    }
    ghost var t, tlb, base := p.mmu.Snap(), p.mmu.tlb, pbase / 0x1000;
    PagerParts(p);
    CopyImage(p.mmu, cd, csz + dsz, bsz, pbase, base, pages);
    LoadedImage(t, p.mmu.Snap(), base, pages, cd, csz + dsz, csz + dsz + bsz);
    SnapParts(p.mmu);
    assert p.mmu.Snap().tables == t.tables == s.tables by { HandedOutBound(s, t, base, pages); }
    StillValid(p, t, tlb, base, pages);
    FreshRunNotOwned(lists, owner, s, t, base, pages, p.mmu.mem, base, pages);
  }

  // ----- a spawn that fails after its program was loaded -----

  /** With the workspaces and owners of before, what came since left user space consistent. */
  lemma ForgetSpace(lists0: Lists, lists1: Lists, stacks: set<Workspace>, owner0: map<nat, Owner>, owner1: map<nat,
                    Owner>,
                    s0: Snapshot, s1: Snapshot, code: Workspace?, stack: Workspace?)
    requires Consistent(lists0, stacks, owner0, s0, code, stack) && Consistent(lists1, stacks, owner1, s1, code, stack)
    requires forall w :: w in lists0 ==> w in lists1 && lists1[w] == lists0[w]
    requires KeepsOwners(owner0, owner1)
    ensures Consistent(lists0, stacks, owner0, s1, code, stack)
  {
    hide FreeFrame, IsTable, Mapped, Walk, Covered, AllGood, CoverLow, InPlace, View, LowPage, Extent.Covers,
      Extent.FrameFor, UserOpen, AllOpen;
    assert ListOf(lists0, code) == ListOf(lists1, code) && ListOf(lists0, stack) == ListOf(lists1, stack);
  }

  /** Bytes of the range just allocated, given back, belong to nobody; memory stays sound exactly if
      it stays in whole frames. */
  lemma GivenBack(lists: Lists, stacks: set<Workspace>, owner: map<nat, Owner>, s0: Snapshot, s1: Snapshot,
                  code: Workspace?, stack: Workspace?, pages: nat, size: nat)
    requires 0 < pages < 0x10_0000 && size <= pages * 0x1000 && Allocated(s0.regions, pages).0 != 0
    requires s1.regions == Allocated(s0.regions, pages).1 && s1.tables == s0.tables && Sound(s0) && Sound(s1)
    requires Owned(lists, owner, s0) && Consistent(lists, stacks, owner, s1, code, stack)
    ensures var (a, rest) := Allocated(s0.regions, pages);
            var s2 := s1.(regions := Freed(rest, a, size));
            (Sound(s2) <==> FreedInPages(rest, a, size)) && Consistent(lists, stacks, owner, s2, code, stack)
  {
    hide Walk, Tree, Maps, FreeFrame, FreeCount, Paged, FreedInPages, Freed, View, InPlace, CoverLow, Seated,
      AllGood, Allocated, Listed;
    var (a, rest) := Allocated(s0.regions, pages);
    AllocHandsOutFrames(s0.regions, pages);
    TakenNotListed(s0.regions, pages);
    FreedStaysPagedIff(rest, a, size);
    forall f: nat | FreeFrame(Freed(rest, a, size), f)
      ensures FreeFrame(s0.regions, f)
    {
      FreedFrames(rest, a, size, f);
      if a <= f * PAGE_SIZE < a + size { FrameInRun(a, pages, f); }
    }
  }

  lemma FrameInRun(a: nat, pages: nat, f: nat)
    requires a % PAGE_SIZE == 0 && a <= f * PAGE_SIZE < a + pages * PAGE_SIZE
    ensures a / PAGE_SIZE <= f < a / PAGE_SIZE + pages
  {
  }

  lemma TakenNotListed(rs: seq<Region>, pages: nat)
    requires Paged(rs) && pages < 0x10_0000 && Allocated(rs, pages).0 != 0
    ensures var (a, rest) := Allocated(rs, pages);
            forall x :: a <= x < a + pages * PAGE_SIZE ==> !Listed(rest, x)
  {
    hide Listed, Usable, FirstFit, AllDisjoint;
    var (a, rest) := Allocated(rs, pages);
    RequestIsExact(pages);
    forall x | a <= x < a + pages * PAGE_SIZE
      ensures !Listed(rest, x)
    {
      AllocTakesItsBytes(rs, pages, x);
    }
  }

  /** What spawn_process does when its thread cannot be had: it frees a number of bytes, which is the
      image's number of pages, from the start of the range it had allocated. */
  method GiveBack(p: Pager, pbase: nat, size: nat, ghost pages: nat, ghost spaces0: set<Workspace>, ghost lists0: Lists,
                  ghost owner0: map<nat, Owner>, ghost s0: Snapshot)
    requires p.Valid() && 0 < pages < 0x10_0000 && size <= pages * 0x1000 && Sound(s0)
    requires (pbase, p.mmu.pages.Regions()) == Allocated(s0.regions, pages) && pbase != 0
    requires p.mmu.Snap().tables == s0.tables && lists0.Keys == spaces0 && spaces0 <= p.spaces
    requires forall w :: w in lists0 ==> lists0[w] == w.extents
    requires Consistent(lists0, p.stacks, owner0, s0, p.codeWs, p.stackWs) && KeepsOwners(owner0, p.owner)
    modifies p`spaces, p`owner, p.mmu.pages, p.mmu.pages.repr
    ensures p.mmu.pages.Regions() == Freed(old(p.mmu.pages.Regions()), pbase, size)
    ensures p.Valid() <==> FreedInPages(old(p.mmu.pages.Regions()), pbase, size)
    ensures fresh(p.mmu.pages.repr - old(p.mmu.pages.repr))
    ensures p.spaces == spaces0 && p.owner == owner0 && p.Lists() == lists0
  {
    hide Walk, Sound, Consistent, FreeList.Regions, FreeList.Valid, Allocated, Mmu.Coherent, KeepsOwners, Owned,
      LowUnseen, FreedInPages, Freed;
    ghost var s1, lists1 := p.mmu.Snap(), p.Lists();
    PagerParts(p);
    ForgetSpace(lists0, lists1, p.stacks, owner0, p.owner, s0, s1, p.codeWs, p.stackWs);
    OwnedIn(lists0, p.stacks, owner0, s0, p.codeWs, p.stackWs);
    GivenBack(lists0, p.stacks, owner0, s0, s1, p.codeWs, p.stackWs, pages, size);
    p.mmu.pages.FreePages(pbase, size);
    p.spaces, p.owner := spaces0, owner0;
    assert p.Lists() == lists0;
    assert p.mmu.Snap() == s1.(regions := Freed(s1.regions, pbase, size));
  }

  lemma OwnedIn(lists: Lists, stacks: set<Workspace>, owner: map<nat, Owner>, s: Snapshot, code: Workspace?,
                stack: Workspace?)
    requires Consistent(lists, stacks, owner, s, code, stack)
    ensures Owned(lists, owner, s)
  {
    hide Owned, View, InPlace, CoverLow;
  }

  lemma SumOfPages(csz: nat, dsz: nat, bsz: nat)
    ensures ImagePages(csz, dsz, bsz) == RoundUp(csz) / 0x1000 + RoundUp(dsz) / 0x1000 + RoundUp(bsz) / 0x1000
  {
  }
}
