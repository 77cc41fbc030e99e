/** What a program reads and writes through its own address space. */
module UserViews {
  import opened Bytes
  import opened Options
  import opened PageTables
  import opened PageManager
  import opened FrameSupply
  import opened PagingUnit
  import opened Workspaces
  import opened AddressSpaces
  import opened Loader
  import opened PagerState
  import opened ProcessImages

  /** The byte that the list es puts at user address va. */
  ghost function ByteIn(m: Mem, es: seq<Extent>, va: nat): Option<Byte> {
    match Mapped(es, PageNo(va))
    case None => None
    case Some(e) => Some(PageAt(m, FrameOf(e))[InPage(va)])
  }

  /** The byte a program's access to va reads, through the TLB; nothing if the entries on the path deny it
      to programs. */
  ghost function Reads(u: Mmu, va: nat): Option<Byte>
    reads u
  {
    match if UserMay(u.mem, PageNo(va)) then u.Sees(PageNo(va)) else None
    case None => None
    case Some(e) => Some(PageAt(u.mem, FrameOf(e))[InPage(va)])
  }

  /** The image is in workspace w: its byte i at user address USPACE_BOT + i. */
  ghost predicate ImageReady(m: Mem, es: seq<Extent>, cd: seq<Byte>, ssz: nat, n: nat)
    requires ssz <= |cd|
  {
    forall i: nat :: i < n ==> ByteIn(m, es, USPACE_BOT + i) == Some(ImageByte(cd, ssz, i))
  }

  lemma EntryIsFrame(e: Extent, p: nat)
    requires e.Good() && e.Covers(p)
    ensures FrameOf(e.EntryFor(p)) == e.FrameFor(p)
  {
    HighPart(e.FrameFor(p), e.flags);
    assert e.EntryFor(p) == e.FrameFor(p) * 0x1000 + e.flags;
  }

  /** A mapped page of a workspace is backed by a frame that this workspace owns, at this page. */
  lemma {:induction false} MappedIsOwned(lists: Lists, owner: map<nat, Owner>, s: Snapshot, w: Workspace, k: nat,
                                         p: nat)
    requires Owned(lists, owner, s) && w in lists && AllGood(lists[w]) && k <= |lists[w]|
    requires Mapped(lists[w][..k], p).Some?
    ensures var f := FrameOf(Mapped(lists[w][..k], p).value); f in owner && owner[f] == Space(w, p)
  {
    hide IsTable, Extent.Good, FrameOf, Extent.EntryFor, Extent.FrameFor, Extent.Covers;
    var es := lists[w][..k];
    var e := es[k - 1];
    if e.Covers(p) {
      assert e == lists[w][k - 1];
      CoversSomething(e, p);
      assert e.Good();
      EntryIsFrame(e, p);
      assert lists[w][k - 1].FrameFor(p) in owner;
    } else {
      assert es[..|es| - 1] == lists[w][..k - 1];
      MappedIsOwned(lists, owner, s, w, k - 1, p);
    }
  }

  // ----- which pages a program may access -----

  /** Every page that a list maps has the three bits in its entry. */
  lemma {:induction false} MappedBits(es: seq<Extent>, p: nat)
    requires AllGood(es) && AllOpen(es) && Mapped(es, p).Some?
    ensures UserBits(Mapped(es, p).value)
  {
    hide Extent.Good, Extent.EntryFor, Extent.Covers, UserBits;
    var e, init := es[|es| - 1], es[..|es| - 1];
    if e.Covers(p) {
      CoversSomething(e, p);
      assert e.Good() && UserBits(e.flags);
      EntryFlags(e, p);
      BitsOfFlags(e.EntryFor(p));
    } else {
      MappedBits(init, p);
    }
  }

  lemma EntryFlags(e: Extent, p: nat)
    requires e.Good() && e.Covers(p)
    ensures e.EntryFor(p) % 0x1000 == e.flags
  {
    assert e.EntryFor(p) == e.FrameFor(p) * 0x1000 + e.flags;
  }

  lemma MayMeansMapped(m: Mem, p: nat)
    requires UserMay(m, p)
    ensures Walk(m, p).Some?
  {
    hide Entry, TableOf;
    assert PathEntry(m, p, 0).Some? && UserBits(PathEntry(m, p, 0).value);
  }

  /** A program may read and write a page of user space if and only if one of its two workspaces maps it: the
      entries on its path have the three bits on all four levels.  (Until the first code workspace is in place
      the low pages are the boot code's.) */
  lemma ProgramMayIff(lists: Lists, stacks: set<Workspace>, owner: map<nat, Owner>, s: Snapshot, code: Workspace?,
                      stack: Workspace?, p: nat)
    requires Sound(s) && Consistent(lists, stacks, owner, s, code, stack)
    requires USER_FIRST <= p < USER_LIMIT && !(code == null && LowPage(p))
    ensures UserMay(s.mem, p) <==> Mapped(ListOf(lists, code) + ListOf(lists, stack), p).Some?
  {
    hide Sound, Walk, Mapped, AllGood, AllOpen, UserOpen, UserMay, UserBits, Owned, InPlace, CoverLow, LowPage;
    var es, fs := ListOf(lists, code), ListOf(lists, stack);
    assert Walk(s.mem, p) == Mapped(es + fs, p);
    if UserMay(s.mem, p) { MayMeansMapped(s.mem, p); }
    if Mapped(es + fs, p).Some? {
      MappedConcat(es, fs, p);
      NothingIsGood();
      if Mapped(fs, p).Some? { MappedBits(fs, p); } else { MappedBits(es, p); }
      OpenMeansMay(s, p);
    }
  }

  lemma NothingIsGood()
    ensures AllGood([]) && AllOpen([])
  {
  }

  lemma CoversSomething(e: Extent, p: nat)
    requires e.Covers(p)
    ensures e.size != 0 && e.First() <= p
  {
  }

  lemma ByteOwned(lists: Lists, owner: map<nat, Owner>, s: Snapshot, w: Workspace, p: nat)
    requires Owned(lists, owner, s) && w in lists && AllGood(lists[w]) && Mapped(lists[w], p).Some?
    ensures var f := FrameOf(Mapped(lists[w], p).value); f in owner && owner[f] == Space(w, p)
  {
    hide Owned, AllGood, Mapped;
    assert lists[w][..|lists[w]|] == lists[w];
    MappedIsOwned(lists, owner, s, w, |lists[w]|, p);
  }

  // ----- a program's image, from loading to its first instruction -----

  lemma ImagePage(i: nat, pbase: nat, pages: nat)
    requires pbase % 0x1000 == 0 && i < pages * 0x1000 && pages < 0x10_0000
    ensures PageNo(USPACE_BOT + i) == USER_FIRST + PageOf(i) && InPage(USPACE_BOT + i) == InPage(i)
    ensures CodeExtent(pbase, pages).Covers(USER_FIRST + PageOf(i))
    ensures CodeExtent(pbase, pages).FrameFor(USER_FIRST + PageOf(i)) == FrameAt(pbase / 0x1000, i)
  {
    assert USPACE_BOT + i == 0x100 * 0x1000 + i;
    assert (USPACE_BOT + i) / 0x1000 == 0x100 + i / 0x1000;
    assert i / 0x1000 < pages;
  }

  /** Once loaded, the image is at its user addresses. */
  lemma LoadedIsReady(m: Mem, pbase: nat, pages: nat, cd: seq<Byte>, ssz: nat, n: nat)
    requires pbase % 0x1000 == 0 && CodeExtent(pbase, pages).Good() && n <= pages * 0x1000 && ssz <= |cd|
    requires pages < 0x10_0000
    requires ImageIn(m, pbase / 0x1000, cd, ssz, n)
    ensures ImageReady(m, [CodeExtent(pbase, pages)], cd, ssz, n)
  {
    hide PageAt, FrameAt, PageOf, InPage, PageNo, FrameOf, Extent.Covers, Extent.EntryFor, Extent.FrameFor, Extent.Good,
      ImageByte;
    var e := CodeExtent(pbase, pages);
    forall i: nat | i < n
      ensures ByteIn(m, [e], USPACE_BOT + i) == Some(ImageByte(cd, ssz, i))
    {
      ImagePage(i, pbase, pages);
      EntryIsFrame(e, USER_FIRST + PageOf(i));
    }
  }

  /** The frames that workspace w owns kept their bytes. */
  ghost predicate FramesOfKept(owner: map<nat, Owner>, m: Mem, m': Mem, w: Workspace) {
    forall f :: f in owner && owner[f].Space? && owner[f].w == w ==> PageAt(m', f) == PageAt(m, f)
  }

  /** While the frames it owns keep their bytes, a workspace's image stays. */
  lemma ImageStays(lists: Lists, owner: map<nat, Owner>, s: Snapshot, m: Mem, w: Workspace, cd: seq<Byte>, ssz: nat,
                   n: nat)
    requires Owned(lists, owner, s) && w in lists && AllGood(lists[w]) && ssz <= |cd|
    requires FramesOfKept(owner, s.mem, m, w)
    requires ImageReady(s.mem, lists[w], cd, ssz, n)
    ensures ImageReady(m, lists[w], cd, ssz, n)
  {
    hide PageAt, Owned, AllGood, PageNo, InPage, FrameOf, Mapped, ImageByte;
    forall i: nat | i < n
      ensures ByteIn(m, lists[w], USPACE_BOT + i) == Some(ImageByte(cd, ssz, i))
    {
      assert ByteIn(s.mem, lists[w], USPACE_BOT + i) == Some(ImageByte(cd, ssz, i));
      ByteOwned(lists, owner, s, w, PageNo(USPACE_BOT + i));
    }
  }

  /** The word that the list es puts at user address va. */
  ghost function WordIn(m: Mem, es: seq<Extent>, va: nat): Option<nat> {
    match Mapped(es, PageNo(va))
    case None => None
    case Some(e) => Some(Entry(m, FrameOf(e), WordNo(va)))
  }

  /** What the first iretq of a thread pops: entry point, selector, flags, stack, selector. */
  function FirstFrame(func: nat, flags: nat): seq<nat> {
    [func, 0x1B, flags, 0x7FFF_FFFF_F000, 0x23]
  }

  /** The frame laid down through the window lies where the thread's saved stack pointer points. */
  lemma FirstFrameSeen(m: Mem, pg: nat, func: nat, flags: nat, k: nat)
    requires StackExtent(pg).Good() && pg % 0x1000 == 0 && FrameBuilt(m, pg / 0x1000 + 1, func, flags) && k < 5
    ensures WordIn(m, [StackExtent(pg)], FIRST_RSP + 8 * k) == Some(FirstFrame(func, flags)[k])
  {
    hide Entry, FrameOf, Extent.Good, Extent.EntryFor;
    var e, va := StackExtent(pg), FIRST_RSP + 8 * k;
    assert PageNo(va) == USER_LIMIT - 1 && WordNo(va) == FRAME_SLOT + k;
    assert e.First() == USER_LIMIT - 2 && e.Count() == 2 && e.FrameFor(USER_LIMIT - 1) == pg / 0x1000 + 1;
    EntryIsFrame(e, USER_LIMIT - 1);
    assert Mapped([e], USER_LIMIT - 1) == Some(e.EntryFor(USER_LIMIT - 1));
  }

  /** With nothing stale, an access goes through the current translation. */
  lemma SeesIsWalk(u: Mmu, p: nat)
    requires u.Coherent() && u.stale == {} && p < VPAGES
    ensures u.Sees(p) == Walk(u.mem, p)
  {
    hide Walk;
    if p in u.tlb { assert p in u.tlb - u.stale; }
  }

  /** User space reads exactly what the running thread's two workspaces hold. */
  lemma ProgramReads(k: Pager, va: nat)
    requires k.Valid() && USER_FIRST <= PageNo(va) < USER_LIMIT && !(k.codeWs == null && LowPage(PageNo(va)))
    ensures Reads(k.mmu, va) == ByteIn(k.mmu.mem, ListOf(k.Lists(), k.codeWs) + ListOf(k.Lists(), k.stackWs), va)
  {
    hide UserMay, PageAt, Mmu.Valid, Mmu.Coherent, FrameOf, PageNo, InPage, Owned, InPlace, AllGood, Mapped, Mmu.Sees,
      Walk, Sound, Pager.Lists, UserOpen, AllOpen, LowPage, CoverLow, LowUnseen;
    MemOf(k.mmu);
    SeesIsWalk(k.mmu, PageNo(va));
    assert Sound(k.mmu.Snap()) by { PagerParts(k); }
    ProgramMayIff(k.Lists(), k.stacks, k.owner, k.mmu.Snap(), k.codeWs, k.stackWs, PageNo(va));
  }

  /** A program that is running with its image in place reads that image. */
  lemma ProgramSeesImage(k: Pager, cd: seq<Byte>, ssz: nat, n: nat, i: nat)
    requires k.Valid() && k.codeWs != null && ssz <= |cd| && i < n
    requires ImageReady(k.mmu.mem, ListOf(k.Lists(), k.codeWs), cd, ssz, n)
    ensures Reads(k.mmu, USPACE_BOT + i) == Some(ImageByte(cd, ssz, i))
  {
    hide UserMay, PageAt, Mmu.Valid, Mmu.Coherent, FrameOf, PageNo, InPage, AllGood, Mapped, Mmu.Sees, Walk,
      Pager.Lists,
      Covered, ImageByte, UserOpen, AllOpen, Owned, View, CoverLow, LowUnseen;
    var va, code, stack := USPACE_BOT + i, ListOf(k.Lists(), k.codeWs), ListOf(k.Lists(), k.stackWs);
    assert ByteIn(k.mmu.mem, code, va) == Some(ImageByte(cd, ssz, i));
    SeatsApart(k.Lists(), k.stacks, k.codeWs, k.stackWs);
    MappedIffCovered(code, PageNo(va));
    MappedIffCovered(stack, PageNo(va));
    MappedConcat(code, stack, PageNo(va));
    ProgramReads(k, va);
  }

  // ----- stores -----

  /** Frames owned otherwise than by one of the two workspaces at page p kept their bytes. */
  ghost predicate OthersUntouched(owner: map<nat, Owner>, s: Snapshot, t: Snapshot, code: Workspace?,
                                  stack: Workspace?, p: nat)
  {
    forall f :: f in owner && !(owner[f].Space? && owner[f].vp == p && (owner[f].w == code || owner[f].w == stack)) ==>
      PageAt(t.mem, f) == PageAt(s.mem, f)
  }

  /** The page of a user address is mapped for the running thread. */
  ghost predicate UserMapped(lists: Lists, code: Workspace?, stack: Workspace?, va: nat) {
    && USER_FIRST <= PageNo(va) < USER_LIMIT
    && Mapped(ListOf(lists, code) + ListOf(lists, stack), PageNo(va)).Some?
  }

  /** The frame behind a mapped user page belongs to the running thread, at that page. */
  lemma TargetOwned(lists: Lists, stacks: set<Workspace>, owner: map<nat, Owner>, s: Snapshot,
                    code: Workspace?, stack: Workspace?, va: nat)
    requires Consistent(lists, stacks, owner, s, code, stack) && UserMapped(lists, code, stack, va)
    ensures Walk(s.mem, PageNo(va)).Some?
    ensures var f := FrameOf(Walk(s.mem, PageNo(va)).value);
            && f in owner && !IsTable(s.tables, f)
            && owner[f].Space? && owner[f].vp == PageNo(va) && (owner[f].w == code || owner[f].w == stack)
  {
    hide Walk, Mapped, AllGood, InPlace, FrameOf, IsTable, FreeFrame, PageNo, LowPage, CoverLow, Covered, UserOpen,
      AllOpen;
    var p := PageNo(va);
    MappedPageSeen(lists, stacks, code, stack, p);
    MappedConcat(ListOf(lists, code), ListOf(lists, stack), p);
    EmptyMapsNothing(p);
    if Mapped(ListOf(lists, stack), p).Some? {
      ByteOwned(lists, owner, s, stack, p);
    } else {
      ByteOwned(lists, owner, s, code, p);
    }
  }

  lemma MappedPageSeen(lists: Lists, stacks: set<Workspace>, code: Workspace?, stack: Workspace?, p: nat)
    requires InPlace(lists, stacks) && Seated(lists, stacks, code, stack)
    requires Mapped(ListOf(lists, code) + ListOf(lists, stack), p).Some?
    ensures !(code == null && LowPage(p))
  {
    hide Mapped, Covered, LowPage;
    MappedConcat(ListOf(lists, code), ListOf(lists, stack), p);
    MappedIffCovered(ListOf(lists, code), p);
    MappedIffCovered(ListOf(lists, stack), p);
    SeenPage(lists, stacks, code, stack, p);
  }

  lemma EmptyMapsNothing(p: nat)
    ensures Mapped([], p) == None
  {
  }

  lemma ByteStored(s: Snapshot, f: nat, o: nat, b: Byte)
    requires Sound(s) && !IsTable(s.tables, f) && o < 0x1000
    ensures var m := PokeByte(s.mem, f, o, b);
            && Sound(s.(mem := m)) && (forall p :: 0 <= p < VPAGES ==> Walk(m, p) == Walk(s.mem, p))
            && (forall g: nat :: g != f ==> PageAt(m, g) == PageAt(s.mem, g)) && PageAt(m, f)[o] == b
            && Hangs(s, s.(mem := m), {})
  {
    hide Walk, Sound, IsTable, Hangs;
    DataStore(s, f, PokeByte(s.mem, f, o, b));
    StoresHang(s, PokeByte(s.mem, f, o, b));
  }

  /** A store by the running program to a page of its own changes that byte, and no frame of anyone
      else. */
  method UserStore(k: Pager, va: nat, b: Byte)
    requires k.Valid() && UserMapped(k.Lists(), k.codeWs, k.stackWs, va)
    modifies k.mmu`mem, k.mmu`tlb
    ensures k.Valid() && k.mmu.Snap() == old(k.mmu.Snap()).(mem := k.mmu.mem)
    ensures old(UserMay(k.mmu.mem, PageNo(va))) && Reads(k.mmu, va) == Some(b)
    ensures OthersUntouched(k.owner, old(k.mmu.Snap()), k.mmu.Snap(), k.codeWs, k.stackWs, PageNo(va))
  {
    hide UserMay, Walk, Sound, Hangs, Consistent, FrameOf, IsTable, Pager.Valid, Pager.Lists, Mmu.Valid,
      Mmu.Coherent, Mmu.Snap,
      UserMapped, PageNo, InPage, PokeByte, FreeList.Regions, FreeList.Valid, LowUnseen, LowPage;
    ghost var s, e, tlb0 := k.mmu.Snap(), Walk(k.mmu.mem, PageNo(va)), k.mmu.tlb;
    PagerParts(k);
    SnapParts(k.mmu);
    ListIsValid(k.mmu);
    UserPageNo(k.Lists(), k.codeWs, k.stackWs, va);
    TargetOwned(k.Lists(), k.stacks, k.owner, s, k.codeWs, k.stackWs, va);
    TargetNotLow(k.Lists(), k.stacks, k.owner, s, k.codeWs, k.stackWs, va);
    SeesIsWalk(k.mmu, PageNo(va));
    ThenMay(k, va);
    FreshWhenNothingStale(k.mmu);
    ByteStored(s, FrameOf(e.value), InPage(va), b);
    k.mmu.StoreB(va, b);
    SnapParts(k.mmu);
    CachedAfterStore(k.mmu, s, tlb0, PageNo(va), e.value);
    ValidAfterStore(k, s, tlb0, PageNo(va), e.value);
    SeesIsWalk(k.mmu, PageNo(va));
    ThenMay(k, va);
  }

  lemma ThenMay(k: Pager, va: nat)
    requires k.Valid() && UserMapped(k.Lists(), k.codeWs, k.stackWs, va)
    ensures UserMay(k.mmu.mem, PageNo(va))
  {
    hide UserMay, Sound, Consistent, Mapped, PageNo, LowPage, Pager.Valid, Pager.Lists, Mmu.Snap;
    PagerParts(k);
    SnapParts(k.mmu);
    TargetNotLow(k.Lists(), k.stacks, k.owner, k.mmu.Snap(), k.codeWs, k.stackWs, va);
    ProgramMayIff(k.Lists(), k.stacks, k.owner, k.mmu.Snap(), k.codeWs, k.stackWs, PageNo(va));
  }

  lemma TargetNotLow(lists: Lists, stacks: set<Workspace>, owner: map<nat, Owner>, s: Snapshot,
                     code: Workspace?, stack: Workspace?, va: nat)
    requires Consistent(lists, stacks, owner, s, code, stack) && UserMapped(lists, code, stack, va)
    ensures code == null ==> !LowPage(PageNo(va))
  {
    hide View, Owned, InPlace, Mapped, AllGood, LowPage, CoverLow, PageNo, UserOpen, AllOpen;
    MappedPageSeen(lists, stacks, code, stack, PageNo(va));
  }

  lemma ListIsValid(u: Mmu)
    requires u.Valid()
    ensures u.pages.Valid()
  {
    hide Sound, FreeList.Valid;
  }

  lemma UserPageNo(lists: Lists, code: Workspace?, stack: Workspace?, va: nat)
    requires UserMapped(lists, code, stack, va)
    ensures PageNo(va) < VPAGES && USER_FIRST <= PageNo(va) < USER_LIMIT
  {
  }

  lemma CachedAfterStore(u: Mmu, s: Snapshot, tlb: map<nat, nat>, p: nat, e: nat)
    requires Fresh(s.mem, tlb) && Walk(s.mem, p) == Some(e) && p < VPAGES && u.tlb == tlb[p := e] && u.stale == {}
    requires forall q :: 0 <= q < VPAGES ==> Walk(u.mem, q) == Walk(s.mem, q)
    requires u.pages.Valid() && Sound(u.Snap())
    ensures u.Coherent() && u.Valid()
  {
    hide Walk, Sound, Mmu.Snap, FreeList.Valid;
    assert forall q :: q in u.tlb ==> q in tlb || q == p;
  }

  lemma ValidAfterStore(k: Pager, s: Snapshot, tlb: map<nat, nat>, p: nat, e: nat)
    requires k.mmu.Valid() && k.mmu.Coherent() && k.mmu.stale == {}
    requires Consistent(k.Lists(), k.stacks, k.owner, s, k.codeWs, k.stackWs)
    requires k.mmu.Snap() == s.(mem := k.mmu.mem)
    requires forall q :: 0 <= q < VPAGES ==> Walk(k.mmu.mem, q) == Walk(s.mem, q)
    requires k.codeWs == null ==> LowUnseen(tlb) && !LowPage(p)
    requires k.mmu.tlb == tlb[p := e] && Hangs(s, s.(mem := k.mmu.mem), {})
    ensures k.Valid()
  {
    hide Hangs, Consistent, Mmu.Valid, Mmu.Coherent, Mmu.Snap, Walk, Pager.Lists, LowPage;
    StoresKeepConsistent(k.Lists(), k.stacks, k.owner, s, k.mmu.mem, k.codeWs, k.stackWs);
  }
}
