/** The running machine's memory: workspace exchange, page faults and user accesses. */
module PagerState {
  import opened Bytes
  import opened Options
  import opened PageTables
  import opened PageManager
  import opened FrameSupply
  import opened PagingUnit
  import opened Workspaces
  import opened Paging
  import opened SpaceSwitch
  import opened AddressSpaces
  import opened Loader

  const USER_FLAGS := 7

  class Pager {
    const mmu: Mmu
    var codeWs: Workspace?      // cur_ws[CODE_DATA_WS]
    var stackWs: Workspace?     // cur_ws[STACK_WS]
    ghost var spaces: set<Workspace>
    ghost var stacks: set<Workspace>
    ghost var owner: map<nat, Owner>

    /** No workspace yet, and nothing mapped in user space but what the boot code left there. */
    constructor (mmu: Mmu)
      requires mmu.Valid() && mmu.Coherent() && mmu.stale == {}
      requires View(mmu.mem, [], true) && LowUnseen(mmu.tlb) && UserOpen(mmu.Snap())
      ensures this.mmu == mmu && Valid() && spaces == {} && codeWs == null && stackWs == null
    {
      hide Walk, Sound, Mmu.Valid, Mmu.Coherent, Consistent, Mmu.Snap, View, LowUnseen, UserOpen;
      this.mmu, codeWs, stackWs, spaces, stacks, owner := mmu, null, null, {}, {}, map[];
      new;
      assert Lists() == map[];
      assert mmu.Snap().mem == mmu.mem by { MemOf(mmu); }
      NothingSeen(mmu.Snap());
    }

    ghost function Lists(): Lists
      reads this, spaces
    {
      map w | w in spaces :: w.extents
    }

    /** The state of the machine's user space is consistent and no TLB entry is stale. */
    ghost predicate Valid()
      reads this, mmu, mmu.pages, mmu.pages.chain, spaces
    {
      && mmu.Valid() && mmu.Coherent() && mmu.stale == {}
      && Consistent(Lists(), stacks, owner, mmu.Snap(), codeWs, stackWs)
      && (codeWs == null ==> LowUnseen(mmu.tlb))
    }

    /** swap_ws.  The invariant is kept if and only if the missing tables take no frame that somebody owns;
        with enough free frames they never do. */
    method SwapWs(ws: Workspace?, wsi: nat)
      requires Valid() && wsi < 2
      requires ws != null ==> ws in spaces && (ws in stacks <==> wsi == STACK_WS)
      requires Affords(mmu.Snap(), TablesForAll(ListOf(Lists(), ws)))
      modifies this`codeWs, this`stackWs, mmu, mmu.pages, mmu.pages.repr
      ensures Valid() <==> Finds(old(mmu.Snap()), owner, TablesForAll(ListOf(Lists(), ws)))
      ensures mmu.Valid() && mmu.Coherent() && mmu.pages.repr == old(mmu.pages.repr) && Lists() == old(Lists())
      ensures codeWs == if wsi == CODE_DATA_WS then ws else old(codeWs)
      ensures stackWs == if wsi == STACK_WS then ws else old(stackWs)
      ensures Extends(old(mmu.Snap()), mmu.Snap(), TablesForAll(ListOf(Lists(), ws)))
    {
      hide Walk, Sound, Affords, Extends, TablesForAll, ListCleared, ListMapped, Consistent, Swapped,
        Mmu.Valid, Mmu.Coherent, Mmu.Snap, AllGood, LowUnseen, Finds;
      ghost var s, c, lists := mmu.Snap(), mmu.Cached(), Lists();
      ghost var code, stack := codeWs, stackWs;
      var out := if wsi == CODE_DATA_WS then codeWs else stackWs;
      if wsi == CODE_DATA_WS { codeWs := ws; } else { stackWs := ws; }
      ghost var outList, into := ListOf(lists, out), ListOf(lists, ws);
      BeforeSwap(lists, code, stack, out, ws, s);
      FreshWhenNothingStale(mmu);
      MemOf(mmu);
      Exchange(mmu, if out == null then [] else out.extents, if ws == null then [] else ws.extents);
      SwappedExtends(s, mmu.Snap(), c, mmu.Cached(), outList, into);
      ExtendsByNew(s, mmu.Snap(), TablesForAll(outList), TablesForAll(into));
      FindsByNew(s, owner, TablesForAll(outList), TablesForAll(into));
      AfterSwap(lists, c, s, code, stack, ws, wsi);
      assert Lists() == lists;
    }

    /** The workspace a user-space fault is charged to. */
    function ChargedTo(page: nat): Workspace?
      reads this
    {
      if page <= SPLIT_PAGE then codeWs else stackWs
    }

    /** The page-fault handler, for a fault on an absent page.  What alloc_pages answers is mapped; unless the
        address is in the kernel's half it is also appended to the workspace it is charged to.  With no
        frame free this is frame 0.  The invariant is kept and the page has a frame of its own if and only
        if the fault finds such frames. */
    method PageFault(cr2: nat) returns (a: nat)
      requires Valid() && FaultAt(mmu.Snap(), cr2)
      requires cr2 <= KSPACE_LOC ==> USER_FIRST <= PageNo(cr2) < USER_LIMIT && ChargedTo(PageNo(cr2)) != null
      modifies this`owner, codeWs, stackWs, mmu, mmu.pages, mmu.pages.repr
      ensures mmu.Valid() && mmu.Coherent() && mmu.pages.repr == old(mmu.pages.repr)
      ensures FaultOutcome(old(mmu.Snap()), old(owner), mmu.Snap(), owner, PageNo(cr2), a,
                           FaultOwner(cr2, ChargedTo(PageNo(cr2))), Valid())
      ensures cr2 > KSPACE_LOC ==> Lists() == old(Lists())
      ensures cr2 <= KSPACE_LOC ==> Lists() == Charged(old(Lists()), ChargedTo(PageNo(cr2)), PageNo(cr2), a)
    {
      hide *;
      if cr2 > KSPACE_LOC { a := KernelFault(cr2); } else { a := UserFault(cr2); }
      FaultOwnerIs(cr2, ChargedTo(PageNo(cr2)));
    }

    method UserFault(cr2: nat) returns (a: nat)
      requires Valid() && FaultAt(mmu.Snap(), cr2) && cr2 <= KSPACE_LOC
      requires USER_FIRST <= PageNo(cr2) < USER_LIMIT && ChargedTo(PageNo(cr2)) != null
      modifies this`owner, codeWs, stackWs, mmu, mmu.pages, mmu.pages.repr
      ensures mmu.Valid() && mmu.Coherent() && mmu.pages.repr == old(mmu.pages.repr)
      ensures FaultOutcome(old(mmu.Snap()), old(owner), mmu.Snap(), owner, PageNo(cr2), a,
                           FaultOwner(cr2, ChargedTo(PageNo(cr2))), Valid())
      ensures Lists() == Charged(old(Lists()), ChargedTo(PageNo(cr2)), PageNo(cr2), a)
    {
      hide Walk, Consistent, PageGiven, Extends, RunMapped, Mmu.Coherent, FreeFrame, Allocated, Reserved, Faulted,
        PageNo, TablesFor, TablesForRange, FreeList.Regions, FreeList.Valid, PageAt, Clear, GoodFlags, Affords,
        UnitsFor, FirstEntry, Sound, Added, FaultAt, PageBase, FaultExtent, FaultOutcome, FaultOwner,
        Mmu.Snap, Mmu.Valid, Mmu.Cached, LowUnseen, PageTaken, ListOf;
      ghost var s := mmu.Snap();
      MemOf(mmu);
      ValidIsSound(mmu);
      a := TakePage(mmu, cr2);
      BackPage(cr2, a, s);
    }

    /** The frame at address a is put behind the page of cr2, and charged to its workspace. */
    method BackPage(cr2: nat, a: nat, ghost s: Snapshot)
      requires mmu.Valid() && mmu.Coherent() && mmu.stale == {} && Sound(s) && PageTaken(s, mmu.Snap(), cr2, a)
      requires Consistent(Lists(), stacks, owner, s, codeWs, stackWs) && (codeWs == null ==> LowUnseen(mmu.tlb))
      requires cr2 <= KSPACE_LOC && USER_FIRST <= PageNo(cr2) < USER_LIMIT && ChargedTo(PageNo(cr2)) != null
      modifies this`owner, codeWs, stackWs, mmu, mmu.pages, mmu.pages.repr
      ensures mmu.Valid() && mmu.Coherent() && mmu.pages.repr == old(mmu.pages.repr)
      ensures FaultOutcome(s, old(owner), mmu.Snap(), owner, PageNo(cr2), a, FaultOwner(cr2, ChargedTo(PageNo(cr2))),
                           Valid())
      ensures Lists() == Charged(old(Lists()), ChargedTo(PageNo(cr2)), PageNo(cr2), a)
    {
      hide Walk, Consistent, PageGiven, Extends, RunMapped, Mmu.Coherent, FreeFrame, Allocated, Reserved, Faulted,
        PageNo, TablesFor, TablesForRange, FreeList.Regions, FreeList.Valid, PageAt, Clear, GoodFlags, Affords,
        UnitsFor, FirstEntry, Sound, OwnersKept, Added, PageBase, FaultExtent, Has, Serves, Claimed, FaultOwner,
        Mmu.Snap, Mmu.Valid, Mmu.Cached, LowUnseen, Fresh;
      ghost var s1, c, vp, lists, w := mmu.Snap(), mmu.Cached(), PageNo(cr2), Lists(), ChargedTo(PageNo(cr2));
      MemOf(mmu);
      FreshWhenNothingStale(mmu);
      assert s1.mem == s.mem by { GivenMem(s, s1, a); }
      SeatHasList(lists, stacks, owner, s, codeWs, stackWs, w);
      var page := PageBase(cr2);
      UserPage(cr2);
      var ws := if page <= USPACE_TOP / 2 then codeWs else stackWs;
      assert ws == w;
      ws.AddPgs(page, a, 0x1000, USER_FLAGS);
      ExtentOfFault(vp, a);
      PageIn(mmu, a, cr2, 0x1000, USER_FLAGS);
      MemOf(mmu);
      AfterUserFault(lists, stacks, owner, s, s1, mmu.Snap(), c, mmu.Cached(), codeWs, stackWs, w, vp, a);
      FaultOwnerIs(cr2, w);
      owner := Claimed(owner, s, a / 0x1000, Space(w, vp));
      assert Lists() == lists[w := Added(lists[w], FaultExtent(vp, a))];
    }

    method KernelFault(cr2: nat) returns (a: nat)
      requires Valid() && FaultAt(mmu.Snap(), cr2) && cr2 > KSPACE_LOC
      modifies this`owner, mmu, mmu.pages, mmu.pages.repr
      ensures mmu.Valid() && mmu.Coherent() && mmu.pages.repr == old(mmu.pages.repr)
      ensures FaultOutcome(old(mmu.Snap()), old(owner), mmu.Snap(), owner, PageNo(cr2), a, FaultOwner(cr2, null),
                           Valid())
      ensures Lists() == old(Lists())
    {
      hide Walk, Consistent, PageGiven, Extends, RunMapped, Mmu.Coherent, FreeFrame, Allocated, Reserved, Faulted,
        PageNo, TablesFor, TablesForRange, FreeList.Regions, FreeList.Valid, PageAt, Clear, GoodFlags, Affords,
        UnitsFor, FirstEntry, Sound, OwnersKept, FaultAt, Has, Serves, Claimed, FaultOwner,
        Mmu.Snap, Mmu.Valid, Mmu.Cached, LowUnseen;
      ghost var s, c, vp, lists := mmu.Snap(), mmu.Cached(), PageNo(cr2), Lists();
      FreshWhenNothingStale(mmu);
      MemOf(mmu);
      ValidIsSound(mmu);
      a := TakePage(mmu, cr2);
      ghost var s1 := mmu.Snap();
      PageIn(mmu, a, cr2, 0x1000, USER_FLAGS);
      MemOf(mmu);
      AfterKernelFault(lists, stacks, owner, s, s1, mmu.Snap(), c, mmu.Cached(), codeWs, stackWs, vp, a);
      FaultOwnerIs(cr2, null);
      owner := Claimed(owner, s, a / 0x1000, KernelPage(vp));
      assert Lists() == lists;
    }

    /** A fresh workspace of consecutive frames, not mapped yet: alloc_ws, alloc_pages and
        add_pgs_to_ws as spawn_process and spawn_thread use them.  Null if alloc_pages finds no region. */
    method NewSpace(vbase: nat, pages: nat, ghost isStack: bool) returns (ws: Workspace?, pbase: nat)
      requires Valid() && 0 < pages < 0x10_0000 && SpaceFits(vbase, pages, isStack)
      modifies this`spaces, this`stacks, this`owner, mmu.pages, mmu.pages.repr
      ensures Valid() && mmu.pages.repr == old(mmu.pages.repr) && mmu.Cached() == old(mmu.Cached())
      ensures mmu.Snap() == old(mmu.Snap()).(regions := Allocated(old(mmu.pages.Regions()), pages).1)
      ensures pbase == Allocated(old(mmu.pages.Regions()), pages).0 && (ws == null <==> pbase == 0)
      ensures ws == null ==> spaces == old(spaces) && stacks == old(stacks) && owner == old(owner)
      ensures ws == null ==> mmu.Snap() == old(mmu.Snap())
      ensures ws != null ==>
                && fresh(ws) && spaces == old(spaces) + {ws}
                && stacks == (if isStack then old(stacks) + {ws} else old(stacks))
                && ws.extents == [Extent(vbase, pbase, pages * 0x1000, USER_FLAGS)]
                && HandedOut(old(mmu.Snap()), mmu.Snap(), pbase / 0x1000, pages) && pbase % 0x1000 == 0
                && FramesFor(mmu.Snap(), pbase / 0x1000, pages)
                && KeepsOwners(old(owner), owner)
    {
      hide Walk, Sound, Consistent, HandedOut, FreeList.Regions, FreeList.Valid, Allocated, Mmu.Coherent, OwnedRun,
        Extent.Good, Extent.Count, Extent.First, Extent.Covers, SpaceFits, Mmu.Snap, Mmu.Valid, Mmu.Cached, FramesFor;
      ghost var s, lists := mmu.Snap(), Lists();
      MemOf(mmu);
      ValidIsSound(mmu);
      var w := new Workspace();
      pbase := TakePages(mmu, pages);
      if pbase == 0 {
        ws := null;
        assert Lists() == lists;
        return;
      }
      w.AddPgs(vbase, pbase, pages * 0x1000, USER_FLAGS);
      ghost var e := Extent(vbase, pbase, pages * 0x1000, USER_FLAGS);
      assert w.extents == [e];
      NewExtent(e, pages, isStack);
      assert w !in lists && w !in stacks;
      NewSpaceConsistent(lists, stacks, owner, s, mmu.Snap(), codeWs, stackWs, w, e, isStack);
      spaces := spaces + {w};
      stacks := if isStack then stacks + {w} else stacks;
      owner := OwnedRun(owner, w, e.First(), e.pbase / 0x1000, e.Count());
      assert Lists() == lists[w := [e]];
      MemOf(mmu);
      ws := w;
    }

    lemma BeforeSwap(lists: Lists, code: Workspace?, stack: Workspace?, out: Workspace?, ws: Workspace?, s: Snapshot)
      requires mmu.Valid() && s == mmu.Snap() && Consistent(lists, stacks, owner, s, code, stack)
      requires (out == code || out == stack) && (ws != null ==> ws in lists)
      requires Affords(s, TablesForAll(ListOf(lists, ws)))
      ensures TablesForAll(ListOf(lists, out)) <= s.tables.Keys
      ensures Affords(s, TablesForAll(ListOf(lists, out)))
      ensures Affords(s, TablesForAll(ListOf(lists, out)) + TablesForAll(ListOf(lists, ws)))
      ensures AllGood(ListOf(lists, out)) && AllGood(ListOf(lists, ws)) && (out != null ==> out in lists)
    {
      hide Sound, Walk, TablesForAll, Affords, Owned, InPlace, View;
      ValidIsSound(mmu);
      SeenHaveTables(lists, stacks, owner, s, code, stack, out);
      SwapAffords(s, TablesForAll(ListOf(lists, out)), TablesForAll(ListOf(lists, ws)));
    }

    lemma AfterSwap(lists: Lists, c: Cache, s: Snapshot, code: Workspace?, stack: Workspace?, ws: Workspace?, wsi: nat)
      requires mmu.Valid() && mmu.Coherent() && wsi < 2
      requires Consistent(lists, stacks, owner, s, code, stack) && c.stale == {} && Fresh(s.mem, c.tlb)
      requires ws != null ==> ws in lists && (ws in stacks <==> wsi == STACK_WS)
      requires Swapped(s, mmu.Snap(), c, mmu.Cached(),
                       ListOf(lists, if wsi == CODE_DATA_WS then code else stack), ListOf(lists, ws))
      requires code == null ==> LowUnseen(c.tlb)
      ensures mmu.stale == {} && ((if wsi == CODE_DATA_WS then ws else code) == null ==> LowUnseen(mmu.tlb))
      ensures Finds(s, owner, TablesForAll(ListOf(lists, if wsi == CODE_DATA_WS then code else stack))
                              + TablesForAll(ListOf(lists, ws)))
              <==> Consistent(lists, stacks, owner, mmu.Snap(), if wsi == CODE_DATA_WS then ws else code,
                              if wsi == STACK_WS then ws else stack)
    {
      hide Sound, Walk, Swapped, Fresh, Owned, InPlace, View, Mmu.Valid, Reserved, LowUnseen, CoverLow, Finds,
        TablesForAll;
      SwapConsistent(lists, stacks, owner, s, mmu.Snap(), c, mmu.Cached(), code, stack, ws, wsi);
    }
  }

  lemma SeatHasList(lists: Lists, stacks: set<Workspace>, owner: map<nat, Owner>, s: Snapshot,
                    code: Workspace?, stack: Workspace?, w: Workspace)
    requires Consistent(lists, stacks, owner, s, code, stack) && (w == code || w == stack)
    ensures w in lists && lists[w] != []
  {
    hide Owned, InPlace, View, AllGood;
  }

  /** A run of user pages on one side of the split; one for code begins at USPACE_BOT. */
  predicate SpaceFits(vbase: nat, pages: nat, isStack: bool) {
    && vbase % 0x1000 == 0 && USER_FIRST <= vbase / 0x1000 && vbase / 0x1000 + pages <= USER_LIMIT
    && if isStack then vbase / 0x1000 > SPLIT_PAGE
       else vbase / 0x1000 == USER_FIRST && 0x100 <= pages <= SPLIT_PAGE + 1 - USER_FIRST
  }

  method TakePages(m: Mmu, pages: nat) returns (pbase: nat)
    requires m.Valid() && m.Coherent() && 0 < pages < 0x10_0000
    modifies m.pages, m.pages.repr
    ensures m.Valid() && m.Coherent() && m.Cached() == old(m.Cached()) && m.pages.repr == old(m.pages.repr)
    ensures m.Snap() == old(m.Snap()).(regions := Allocated(old(m.pages.Regions()), pages).1)
    ensures pbase == Allocated(old(m.pages.Regions()), pages).0
    ensures pbase == 0 ==> m.Snap() == old(m.Snap())
    ensures pbase != 0 ==>
              && HandedOut(old(m.Snap()), m.Snap(), pbase / 0x1000, pages) && pbase % 0x1000 == 0
              && pbase / 0x1000 + pages <= PHYS_FRAMES && FramesFor(m.Snap(), pbase / 0x1000, pages)
  {
    hide Walk, Sound, HandedOut, FreeList.Regions, FreeList.Valid, Allocated, Mmu.Coherent, IsTable;
    ghost var s := m.Snap();
    MemOf(m);
    HandOut(s, pages);
    pbase := m.pages.AllocPages(pages);
    assert m.Snap() == s.(regions := Allocated(s.regions, pages).1);
    if pbase != 0 {
      HandedOutBound(s, m.Snap(), pbase / 0x1000, pages);
      HandedOutSound(s, m.Snap(), pbase / 0x1000, pages, map[], map[]);
    }
  }

  lemma NewExtent(e: Extent, pages: nat, isStack: bool)
    requires e.size == pages * 0x1000 && e.flags == USER_FLAGS && pages < 0x10_0000
    requires SpaceFits(e.vbase, pages, isStack) && e.pbase / 0x1000 + pages <= PHYS_FRAMES
    ensures e.Good() && e.Count() == pages
    ensures forall p: nat :: e.Covers(p) ==> (isStack <==> p > SPLIT_PAGE)
    ensures !isStack ==> forall p: nat :: LowPage(p) ==> e.Covers(p)
  {
  }

  lemma UserPage(cr2: nat)
    requires cr2 <= KSPACE_LOC && USER_FIRST <= PageNo(cr2) < USER_LIMIT
    ensures PageBase(cr2) == PageNo(cr2) * 0x1000
    ensures PageBase(cr2) <= USPACE_TOP / 2 <==> PageNo(cr2) <= SPLIT_PAGE
  {
  }

  function PageBase(va: nat): nat {
    va - va % 0x1000
  }

  lemma ExtentOfFault(vp: nat, a: nat)
    ensures Extent(vp * 0x1000, a, 0x1000, USER_FLAGS) == FaultExtent(vp, a)
  {
  }

  /** A fault on an absent page that leaves enough frames for the tables that the page lacks (without
      them a growth leaves no tree of tables, PagingUnit.GrowthIff). */
  ghost predicate FaultAt(s: Snapshot, cr2: nat) {
    && cr2 < WORD_LIMIT && PageNo(cr2) < VPAGES && !Reserved(PageNo(cr2))
    && Walk(s.mem, PageNo(cr2)) == None
    && TablesLeft(s, TablesFor(PageNo(cr2)))
  }

  ghost predicate TablesLeft(s: Snapshot, need: set<Key>) {
    |s.tables.Keys + need| <=
      (if FreeCount(s.regions) > 0 then FreeCount(s.regions) - 1 else 0) + |s.tables| + Spare(s)
  }

  /** Page vp was given the frame at address a, which was free, or frame 0 if none was; no other translation
      changed. */
  ghost predicate Faulted(s: Snapshot, t: Snapshot, vp: nat, a: nat) {
    && a % 0x1000 == 0 && (if FreeCount(s.regions) > 0 then FreeFrame(s.regions, a / 0x1000) else a == 0)
    && Walk(t.mem, vp) == Some(a + USER_FLAGS)
    && forall p :: 0 <= p < VPAGES && p != SCRATCH && p != vp ==> Walk(t.mem, p) == Walk(s.mem, p)
  }

  /** Who is to own the frame of a fault. */
  ghost function FaultOwner(cr2: nat, w: Workspace?): Owner {
    if cr2 > KSPACE_LOC || w == null then KernelPage(PageNo(cr2)) else Space(w, PageNo(cr2))
  }

  lemma FaultOwnerIs(cr2: nat, w: Workspace?)
    ensures cr2 > KSPACE_LOC ==> FaultOwner(cr2, w) == FaultOwner(cr2, null) == KernelPage(PageNo(cr2))
    ensures cr2 <= KSPACE_LOC && w != null ==> FaultOwner(cr2, w) == Space(w, PageNo(cr2))
  {
  }

  /** The frame at address a is owned by `who`. */
  ghost predicate Has(owner: map<nat, Owner>, a: nat, who: Owner) {
    a / 0x1000 in owner && owner[a / 0x1000] == who
  }

  /** What a fault comes to.  The page is mapped to what alloc_pages answered; everything is in order
      afterwards, with that frame its page's own, if and only if the fault found frames for it. */
  ghost predicate FaultOutcome(s: Snapshot, owner: map<nat, Owner>, t: Snapshot, owner': map<nat, Owner>, vp: nat,
                               a: nat, who: Owner, valid: bool)
  {
    && Faulted(s, t, vp, a)
    && (valid && Has(owner', a, who) <==> Serves(s, owner, vp, who))
    && (Serves(s, owner, vp, who) ==> OwnersKept(owner, owner', s, t))
  }

  lemma BeforeFault(s: Snapshot, cr2: nat)
    requires Sound(s) && FaultAt(s, cr2)
    requires cr2 <= KSPACE_LOC ==> PageNo(cr2) < USER_LIMIT
    ensures var (a, rest) := Allocated(s.regions, 1);
            && PageGiven(s, s.(regions := rest), a) && a / 0x1000 + UnitsFor(0x1000) <= PHYS_FRAMES
            && Affords(s.(regions := rest), TablesForRange(PageNo(cr2), UnitsFor(0x1000)))
            && Sound(s.(regions := rest))
    ensures Clear(cr2, UnitsFor(0x1000)) && GoodFlags(USER_FLAGS) && UnitsFor(0x1000) == 1
    ensures PageNo(cr2) != SCRATCH && PageNo(cr2) < VPAGES && (cr2 > KSPACE_LOC ==> USER_LIMIT <= PageNo(cr2))
    ensures Walk(s.mem, PageNo(cr2)) == None
  {
    hide Sound, Walk, Clear, Allocated, FreeFrame, FreeCount, Paged, TablesFor;
    FaultIsClear(cr2);
    PageIsGiven(s);
    GivenSound(s, s.(regions := Allocated(s.regions, 1).1), Allocated(s.regions, 1).0);
    OneRange(PageNo(cr2));
    if cr2 > KSPACE_LOC { AboveUser(cr2); }
  }

  lemma AboveUser(cr2: nat)
    requires KSPACE_LOC < cr2
    ensures USER_LIMIT <= PageNo(cr2)
  {
  }

  lemma OneRange(vp: nat)
    ensures TablesForRange(vp, 1) == TablesFor(vp)
  {
    hide TablesFor;
    assert TablesForRange(vp, 0) == {};
  }

  lemma GivenSound(s: Snapshot, t: Snapshot, a: nat)
    requires Sound(s) && PageGiven(s, t, a)
    ensures Sound(t)
  {
    hide Walk, Tree, Maps, FreeFrame, FreeCount, Paged;
  }

  /** A page was taken for the fault, and it can be mapped. */
  ghost predicate PageTaken(s: Snapshot, t: Snapshot, cr2: nat, a: nat) {
    && PageGiven(s, t, a) && a / 0x1000 + UnitsFor(0x1000) <= PHYS_FRAMES
    && Affords(t, TablesForRange(PageNo(cr2), UnitsFor(0x1000)))
    && Clear(cr2, UnitsFor(0x1000)) && GoodFlags(USER_FLAGS) && UnitsFor(0x1000) == 1
    && PageNo(cr2) != SCRATCH && PageNo(cr2) < VPAGES && (cr2 > KSPACE_LOC ==> USER_LIMIT <= PageNo(cr2))
    && Walk(s.mem, PageNo(cr2)) == None
  }

  lemma GivenMem(s: Snapshot, t: Snapshot, a: nat)
    requires PageGiven(s, t, a)
    ensures t.mem == s.mem && t.tables == s.tables && a / 0x1000 < PHYS_FRAMES
  {
  }

  /** The handler's allocation. */
  method TakePage(m: Mmu, ghost cr2: nat) returns (a: nat)
    requires m.Valid() && m.Coherent() && FaultAt(m.Snap(), cr2)
    requires cr2 <= KSPACE_LOC ==> PageNo(cr2) < USER_LIMIT
    modifies m.pages, m.pages.repr
    ensures m.Valid() && m.Coherent() && m.Cached() == old(m.Cached()) && m.pages.repr == old(m.pages.repr)
    ensures PageTaken(old(m.Snap()), m.Snap(), cr2, a)
  {
    hide Walk, FaultAt, PageGiven, Affords, Sound, Allocated, FreeList.Regions, FreeList.Valid, PageNo, Clear,
      GoodFlags, UnitsFor;
    ghost var s := m.Snap();
    BeforeFault(s, cr2);
    a := m.pages.AllocPages(1);
    assert m.Snap() == s.(regions := Allocated(s.regions, 1).1);
  }

  lemma FaultIsClear(cr2: nat)
    requires cr2 < WORD_LIMIT && !Reserved(PageNo(cr2))
    requires cr2 <= KSPACE_LOC ==> PageNo(cr2) < USER_LIMIT
    ensures Clear(cr2, 1)
  {
    assert PageNo(KSPACE_LOC) == SCRATCH;
  }

  lemma FaultWalks(s: Snapshot, s1: Snapshot, t: Snapshot, c: Cache, d: Cache, vp: nat, a: nat)
    requires RunMapped(s1, t, c, d, vp, 1, FirstEntry(a, USER_FLAGS)) && PageGiven(s, s1, a)
    requires vp < VPAGES && vp != SCRATCH
    ensures Faulted(s, t, vp, a)
  {
    hide TableOf, Entry, Extends, CachedFrom, CachedRun, FreeFrame, FreeCount, Paged;
  }

  /** The lists' own frame of the fault, owned by its page whatever the tables are. */
  lemma OnlyServed(lists: Lists, owner: map<nat, Owner>, o: map<nat, Owner>, s: Snapshot, s1: Snapshot, t: Snapshot,
                   need: set<Key>, f: nat, who: Owner)
    requires Owned(lists, o, t) && KeepsOwners(owner, o) && f in o && o[f] == who
    requires Extends(s1, t, need) && s1.tables == s.tables
    ensures Claimable(owner, s, f, who) && Finds(s1, owner[f := who], need)
  {
    hide FreeFrame, FreeCount, NewTablesWereFree, FreeButTables, CountKept, OthersKept, IsTable;
    FramesPersist(s.tables, t.tables);
    assert 0 in owner[f := who] ==> 0 in o;
    TableInZeroIff(owner[f := who], s1, t, need);
  }

  lemma LastOwned(lists: Lists, o: map<nat, Owner>, t: Snapshot, w: Workspace, es: seq<Extent>, vp: nat, a: nat)
    requires Owned(lists, o, t) && w in lists && es != [] && lists[w] == Added(es, FaultExtent(vp, a))
    ensures Has(o, a, Space(w, vp))
  {
    hide FreeFrame, IsTable;
    var e := lists[w][|lists[w]| - 1];
    assert e == FaultExtent(vp, a) && e.Covers(vp) && e.FrameFor(vp) == a / 0x1000;
    assert lists[w][|lists[w]| - 1].FrameFor(vp) in o;
  }

  /** After a fault in user space owners can be found for all frames, those of before keeping theirs, if and
      only if the fault found frames for its page. */
  lemma FaultServedIff(lists: Lists, stacks: set<Workspace>, owner: map<nat, Owner>, s: Snapshot, s1: Snapshot,
                       t: Snapshot, c: Cache, d: Cache, code: Workspace?, stack: Workspace?, w: Workspace, vp: nat,
                       a: nat)
    requires Sound(s) && Consistent(lists, stacks, owner, s, code, stack)
    requires w == (if vp <= SPLIT_PAGE then code else stack)
    requires USER_FIRST <= vp < USER_LIMIT && Walk(s.mem, vp) == None && PageGiven(s, s1, a)
    requires RunMapped(s1, t, c, d, vp, 1, FirstEntry(a, USER_FLAGS)) && c.stale == {} && Fresh(s.mem, c.tlb)
    requires code == null ==> LowUnseen(c.tlb)
    ensures d.stale == {} && (code == null ==> LowUnseen(d.tlb)) && w in lists && lists[w] != []
    ensures (exists o :: KeepsOwners(owner, o)
               && Consistent(lists[w := Added(lists[w], FaultExtent(vp, a))], stacks, o, t, code, stack))
            <==> Serves(s, owner, vp, Space(w, vp))
    ensures Serves(s, owner, vp, Space(w, vp)) ==>
              && Consistent(lists[w := Added(lists[w], FaultExtent(vp, a))], stacks,
                            owner[a / 0x1000 := Space(w, vp)], t, code, stack)
              && OwnersKept(owner, owner[a / 0x1000 := Space(w, vp)], s, t)
  {
    hide TableOf, Entry, Sound, Extends, Owned, Covered, Mapped, TablesForRange, PageGiven, Fresh, MapsRun, CachedFrom,
      FreeFrame, LowUnseen, CoverLow, LowPage, Serves, Finds, Granted, PageAt, IsTable, OwnedRun, View, InPlace,
      Hangs, UserOpen, AllOpen, UserBits;
    var e, who := FaultExtent(vp, a), Space(w, vp);
    assert e.First() == vp && e.Count() == 1;
    FlagsForPrograms();
    GivenMem(s, s1, a);
    OneRange(vp);
    FaultView(lists, stacks, s.mem, t.mem, c, d, code, stack, w, e);
    ServesIff(lists, owner, s, s1, a, vp, who);
    var lists': Lists := lists[w := Added(lists[w], e)];
    if Serves(s, owner, vp, who) {
      GivenIsGranted(lists, owner, s, s1, a, w, vp);
      FaultConsistent(lists, stacks, owner, s, s1, t, c, d, code, stack, w, e);
      OneOwned(owner, w, vp, a / 0x1000);
      assert KeepsOwners(owner, owner[a / 0x1000 := who]);
      ServedKept(lists, lists', owner, s, s1, t, a, who, TablesFor(vp));
    }
    forall o | KeepsOwners(owner, o) && Consistent(lists', stacks, o, t, code, stack)
      ensures Serves(s, owner, vp, who)
    {
      LastOwned(lists', o, t, w, lists[w], vp, a);
      OnlyServed(lists', owner, o, s, s1, t, TablesFor(vp), a / 0x1000, who);
    }
  }

  lemma FlagsForPrograms()
    ensures UserBits(USER_FLAGS)
  {
  }

  lemma OneOwned(owner: map<nat, Owner>, w: Workspace, vp: nat, f: nat)
    ensures OwnedRun(owner, w, vp, f, 1) == owner[f := Space(w, vp)]
  {
  }

  lemma ServedKept(lists: Lists, lists': Lists, owner: map<nat, Owner>, s: Snapshot, s1: Snapshot, t: Snapshot, a: nat,
                   who: Owner, need: set<Key>)
    requires Sound(s) && Owned(lists, owner, s) && PageGiven(s, s1, a) && Claimable(owner, s, a / 0x1000, who)
    requires Extends(s1, t, need) && Finds(s1, owner[a / 0x1000 := who], need)
    ensures OwnersKept(owner, owner[a / 0x1000 := who], s, t)
  {
    hide Sound, FreeFrame, FreeCount, Paged, PageAt, IsTable, Extends, Finds;
    OwnedOneMore(lists, owner, s1, a / 0x1000, who);
    OwnedExtends(lists, owner[a / 0x1000 := who], s1, t, need);
  }

  lemma AfterUserFault(lists: Lists, stacks: set<Workspace>, owner: map<nat, Owner>, s: Snapshot, s1: Snapshot,
                       t: Snapshot, c: Cache, d: Cache, code: Workspace?, stack: Workspace?, w: Workspace, vp: nat,
                       a: nat)
    requires Sound(s) && Consistent(lists, stacks, owner, s, code, stack)
    requires w == (if vp <= SPLIT_PAGE then code else stack)
    requires USER_FIRST <= vp < USER_LIMIT && Walk(s.mem, vp) == None && PageGiven(s, s1, a)
    requires RunMapped(s1, t, c, d, vp, 1, FirstEntry(a, USER_FLAGS)) && c.stale == {} && Fresh(s.mem, c.tlb)
    requires code == null ==> LowUnseen(c.tlb)
    ensures d.stale == {} && (code == null ==> LowUnseen(d.tlb)) && w in lists && lists[w] != []
    ensures var owner' := Claimed(owner, s, a / 0x1000, Space(w, vp));
            && (Serves(s, owner, vp, Space(w, vp)) ==> OwnersKept(owner, owner', s, t))
            && (Serves(s, owner, vp, Space(w, vp)) <==>
                Consistent(lists[w := Added(lists[w], FaultExtent(vp, a))], stacks, owner', t, code, stack)
                && Has(owner', a, Space(w, vp)))
    ensures Faulted(s, t, vp, a)
  {
    hide TableOf, Entry, Sound, Consistent, RunMapped, PageGiven, Fresh, Faulted, LowUnseen, Serves, OwnersKept, Finds,
      TablesFor;
    FaultServedIff(lists, stacks, owner, s, s1, t, c, d, code, stack, w, vp, a);
    FaultWalks(s, s1, t, c, d, vp, a);
    OwnedThere(lists, stacks, owner, s, code, stack);
    ServesIff(lists, owner, s, s1, a, vp, Space(w, vp));
    assert KeepsOwners(owner, Claimed(owner, s, a / 0x1000, Space(w, vp)));
  }

  lemma OwnedThere(lists: Lists, stacks: set<Workspace>, owner: map<nat, Owner>, s: Snapshot, code: Workspace?,
                   stack: Workspace?)
    requires Consistent(lists, stacks, owner, s, code, stack)
    ensures Owned(lists, owner, s)
  {
    hide Owned, View, InPlace, CoverLow;
  }

  /** No frame changed owner, and no owned frame changed its bytes. */
  ghost predicate OwnersKept(owner: map<nat, Owner>, owner': map<nat, Owner>, s: Snapshot, t: Snapshot) {
    forall f :: f in owner ==> f in owner' && owner'[f] == owner[f] && PageAt(t.mem, f) == PageAt(s.mem, f)
  }

  lemma AfterKernelFault(lists: Lists, stacks: set<Workspace>, owner: map<nat, Owner>, s: Snapshot, s1: Snapshot,
                         t: Snapshot, c: Cache, d: Cache, code: Workspace?, stack: Workspace?, vp: nat, a: nat)
    requires Sound(s) && Consistent(lists, stacks, owner, s, code, stack)
    requires USER_LIMIT <= vp < VPAGES && Walk(s.mem, vp) == None && PageGiven(s, s1, a) && vp != SCRATCH
    requires RunMapped(s1, t, c, d, vp, 1, FirstEntry(a, USER_FLAGS)) && c.stale == {} && Fresh(s.mem, c.tlb)
    requires code == null ==> LowUnseen(c.tlb)
    ensures d.stale == {} && (code == null ==> LowUnseen(d.tlb))
    ensures var owner' := Claimed(owner, s, a / 0x1000, KernelPage(vp));
            && (Serves(s, owner, vp, KernelPage(vp)) ==> OwnersKept(owner, owner', s, t))
            && (Serves(s, owner, vp, KernelPage(vp)) <==>
                Consistent(lists, stacks, owner', t, code, stack) && Has(owner', a, KernelPage(vp)))
    ensures Faulted(s, t, vp, a)
  {
    hide TableOf, Entry, Sound, Extends, Covered, Mapped, TablesForRange, PageGiven, Fresh, CachedFrom, Owned,
      UserOpen, Hangs, AllOpen, FreeFrame, IsTable, FrameOf, PageAt, RunMapped, CachedRun, LowUnseen, CoverLow, LowPage,
      Faulted, Serves, Finds, TablesFor, OwnersKept;
    var f, who := a / 0x1000, KernelPage(vp);
    GivenMem(s, s1, a);
    OneRange(vp);
    FaultWalks(s, s1, t, c, d, vp, a);
    RunStale(s1, t, c, d, vp, a);
    KernelOpen(s, s1, t, a);
    if code == null { StaysUnseen(c.tlb, d.tlb); }
    NothingStale(c, d, s.mem, vp, 1);
    ServesIff(lists, owner, s, s1, a, vp, who);
    KernelClaim(lists, owner, s, s1, t, a, who, TablesFor(vp));
    if Serves(s, owner, vp, who) { ServedKept(lists, lists, owner, s, s1, t, a, who, TablesFor(vp)); }
  }

  lemma KernelClaim(lists: Lists, owner: map<nat, Owner>, s: Snapshot, s1: Snapshot, t: Snapshot, a: nat,
                    who: Owner, need: set<Key>)
    requires Sound(s) && Owned(lists, owner, s) && PageGiven(s, s1, a) && Extends(s1, t, need)
    ensures var owner' := Claimed(owner, s, a / 0x1000, who);
            Claimable(owner, s, a / 0x1000, who) && Finds(s1, owner[a / 0x1000 := who], need)
            <==> Owned(lists, owner', t) && Has(owner', a, who)
  {
    hide Sound, FreeFrame, FreeCount, Paged, PageAt, IsTable, Extends, Finds;
    if Claimable(owner, s, a / 0x1000, who) {
      OwnedOneMore(lists, owner, s1, a / 0x1000, who);
      OwnedExtends(lists, owner[a / 0x1000 := who], s1, t, need);
    }
  }

  lemma RunStale(s: Snapshot, t: Snapshot, c: Cache, d: Cache, vp: nat, a: nat)
    requires RunMapped(s, t, c, d, vp, 1, FirstEntry(a, USER_FLAGS))
    ensures d.stale == c.stale + CachedRun(c.tlb, vp, 1) && Extends(s, t, TablesForRange(vp, 1))
    ensures Hangs(s, t, {FirstEntry(a, USER_FLAGS) % 0x1000})
    ensures CachedFrom(c.tlb, d.tlb)
    ensures forall p :: 0 <= p < VPAGES && p != SCRATCH && p != vp ==> Walk(t.mem, p) == Walk(s.mem, p)
  {
    hide TableOf, Entry, Extends, Hangs;
  }

  /** The tables of a kernel page leave those of user space as they were. */
  lemma KernelOpen(s: Snapshot, s1: Snapshot, t: Snapshot, a: nat)
    requires UserOpen(s) && PageGiven(s, s1, a) && Hangs(s1, t, {FirstEntry(a, USER_FLAGS) % 0x1000})
    ensures UserOpen(t)
  {
    hide UserOpen, Hangs, FreeFrame, FreeCount, Paged;
    OpenRegions(s, s1);
    LowBits(a / 0x1000 * 0x1000, USER_FLAGS);
    OpenStays(s1, t, {FirstEntry(a, USER_FLAGS) % 0x1000});
  }

  lemma OwnedOneMore(lists: Lists, owner: map<nat, Owner>, s: Snapshot, f: nat, who: Owner)
    requires Owned(lists, owner, s) && (f in owner ==> owner[f] == who)
    requires f < PHYS_FRAMES && !FreeFrame(s.regions, f) && !IsTable(s.tables, f)
    ensures Owned(lists, owner[f := who], s)
  {
    hide FreeFrame, IsTable;
  }

  /** The lists once a fault's page has joined workspace w. */
  ghost function Charged(lists: Lists, w: Workspace?, page: nat, a: nat): Lists {
    if w != null && w in lists && lists[w] != [] then lists[w := Added(lists[w], FaultExtent(page, a))] else lists
  }

  /** What a fault on a page adds to a workspace. */
  function FaultExtent(page: nat, a: nat): Extent {
    Extent(page * 0x1000, a, 0x1000, USER_FLAGS)
  }

  /** The two loops of swap_ws. */
  method Exchange(m: Mmu, out: seq<Extent>, into: seq<Extent>)
    requires m.Valid() && m.Coherent() && AllGood(out) && AllGood(into)
    requires Affords(m.Snap(), TablesForAll(out)) && Affords(m.Snap(), TablesForAll(out) + TablesForAll(into))
    modifies m`mem, m`tlb, m`tables, m`stale, m.pages, m.pages.repr
    ensures m.Valid() && m.Coherent() && m.pages.repr == old(m.pages.repr)
    ensures Swapped(old(m.Snap()), m.Snap(), old(m.Cached()), m.Cached(), out, into)
  {
    hide Sound, Affords, TablesForAll, ListCleared, ListMapped, Swapped, Mmu.Valid, Mmu.Coherent, Mmu.Snap,
      Mmu.Cached, AllGood;
    ghost var s, c := m.Snap(), m.Cached();
    UnmapAll(m, out);
    ghost var t, d := m.Snap(), m.Cached();
    ClearedAffords(s, t, c, d, out, into);
    MapAll(m, into);
    ClearedThenMapped(s, t, m.Snap(), c, d, m.Cached(), out, into);
  }

  lemma MemOf(m: Mmu)
    ensures m.Snap().mem == m.mem && m.Snap().tables == m.tables && m.Snap().regions == m.pages.Regions()
    ensures m.Cached().tlb == m.tlb && m.Cached().stale == m.stale
  {
  }

  lemma NothingSeen(s: Snapshot)
    requires View(s.mem, [], true) && UserOpen(s)
    ensures Consistent(map[], {}, map[], s, null, null)
  {
    hide TableOf, Entry, UserOpen;
    var none: seq<Extent> := [];
    assert none + none == none;
  }

  lemma FreshWhenNothingStale(m: Mmu)
    requires m.Coherent() && m.stale == {}
    ensures Fresh(m.mem, m.tlb)
  {
    hide Walk;
    assert m.tlb - {} == m.tlb;
  }

  lemma ClearedAffords(s: Snapshot, t: Snapshot, c: Cache, d: Cache, out: seq<Extent>, into: seq<Extent>)
    requires ListCleared(s, t, c, d, out) && Affords(s, TablesForAll(out) + TablesForAll(into))
    ensures Affords(t, TablesForAll(into))
  {
    hide Walk, Affords, Covered;
    AffordsNext(s, t, TablesForAll(out) + TablesForAll(into), TablesForAll(out), TablesForAll(into));
  }
}
