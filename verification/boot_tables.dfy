/** The page tables as the boot code leaves them, and the kernel that starts from them. */
module BootTables {
  import opened Bytes
  import opened Options
  import opened PageTables
  import opened PageManager
  import opened FrameSupply
  import opened PagingUnit
  import opened Workspaces
  import opened Paging
  import opened SpaceSwitch
  import opened AddressSpaces
  import opened ProcessImages
  import opened PagerState
  import opened Kernels

  const KPDPT_FRAME := 0x3
  const KPDT0_FRAME := 0x4
  const TPDPT_FRAME := 0x6
  const TPDT0_FRAME := 0x9
  const TPT0_FRAME := 0xA
  /** Pages that the boot code maps one to one, low and in the kernel's half. */
  const BOOT_PAGES := 0x1FF      // the low pages of AddressSpaces.LowPage end here

  /** The tables of the kernel's half and of the low half. */
  const BOOT_TABLES: Tables :=
    map[ROOT := PML4_FRAME,
        Key(2, 0x100) := KPDPT_FRAME, Key(1, 0x2_0000) := KPDT0_FRAME, Key(0, 0x400_0000) := KPT0_FRAME,
        Key(2, 0) := TPDPT_FRAME, Key(1, 0) := TPDT0_FRAME, Key(0, 0) := TPT0_FRAME]

  function PointerIn(f: nat, i: nat): nat {
    if f == PML4_FRAME then
      (if i == 0x100 then KPDPT_FRAME * 0x1000 + 3 else if i == 0 then TPDPT_FRAME * 0x1000 + 7 else 0)
    else if f == KPDPT_FRAME then (if i == 0 then KPDT0_FRAME * 0x1000 + 3 else 0)
    else if f == KPDT0_FRAME then (if i == 0 then KPT0_FRAME * 0x1000 + 3 else 0)
    else if f == TPDPT_FRAME then (if i == 0 then TPDT0_FRAME * 0x1000 + 7 else 0)
    else if f == TPDT0_FRAME then (if i == 0 then TPT0_FRAME * 0x1000 + 7 else 0)
    else 0
  }

  function LeafIn(i: nat): nat {
    if i < BOOT_PAGES then i * 0x1000 + 3 else 0
  }

  predicate IsPointerTable(f: nat) {
    f == PML4_FRAME || f == KPDPT_FRAME || f == KPDT0_FRAME || f == TPDPT_FRAME || f == TPDT0_FRAME
  }

  /** Every entry of the seven tables. */
  ghost predicate BootEntries(m: Mem) {
    && (forall f: nat, i: nat {:trigger Entry(m, f, i)} :: IsPointerTable(f) && i < 512 ==>
       Entry(m, f, i) == PointerIn(f, i))
    && (forall f: nat, i: nat {:trigger Entry(m, f, i)} :: (f == KPT0_FRAME || f == TPT0_FRAME) && i < 512 ==>
       Entry(m, f, i) == LeafIn(i))
  }

  /** The table that a frame holds. */
  function KeyAt(f: nat): Key {
    if f == PML4_FRAME then ROOT
    else if f == KPDPT_FRAME then Key(2, 0x100)
    else if f == KPDT0_FRAME then Key(1, 0x2_0000)
    else if f == KPT0_FRAME then Key(0, 0x400_0000)
    else if f == TPDPT_FRAME then Key(2, 0)
    else if f == TPDT0_FRAME then Key(1, 0)
    else Key(0, 0)
  }

  lemma BootKey(k: Key)
    requires k in BOOT_TABLES
    ensures KeyAt(BOOT_TABLES[k]) == k && k.level <= 3 && (k.level == 3 ==> k == ROOT)
    ensures k.level < 3 ==> Parent(k) in BOOT_TABLES
  {
  }

  lemma BootShape()
    ensures Shape(BOOT_TABLES)
  {
    assert ROOT in BOOT_TABLES && BOOT_TABLES[ROOT] == PML4_FRAME;
    hide BOOT_TABLES, KeyAt, Parent;
    forall k | k in BOOT_TABLES
      ensures k.level <= 3 && (k.level == 3 ==> k == ROOT) && (k.level < 3 ==> Parent(k) in BOOT_TABLES)
    {
      BootKey(k);
    }
    forall j, k | j in BOOT_TABLES && k in BOOT_TABLES && j != k
      ensures BOOT_TABLES[j] != BOOT_TABLES[k]
    {
      BootKey(j);
      BootKey(k);
    }
  }

  /** Which keys lie below a table, and where. */
  lemma BootChild(k: Key, i: nat)
    requires k in BOOT_TABLES && 0 < k.level && i < 512
    ensures Child(k, i) in BOOT_TABLES <==> i == 0 || (k == ROOT && i == 0x100)
    ensures IsPointerTable(BOOT_TABLES[k])
    ensures PointerIn(BOOT_TABLES[k], i)
            == if Child(k, i) in BOOT_TABLES then BOOT_TABLES[Child(k, i)] * 0x1000 + BootFlags(k, i) else 0
  {
  }

  function BootFlags(k: Key, i: nat): nat {
    if k.prefix == 0 && i == 0 then 7 else 3
  }

  lemma BootFrameSmall(k: Key)
    requires k in BOOT_TABLES
    ensures 0 < BOOT_TABLES[k] < 0x100
  {
  }

  lemma BootTree(m: Mem)
    requires BootEntries(m)
    ensures Tree(m, BOOT_TABLES)
  {
    hide Entry, PointerIn, Shape, FrameOf, Present, LeafIn, Child, BOOT_TABLES;
    BootShape();
    forall k, i {:trigger Entry(m, BOOT_TABLES[k], i)} | k in BOOT_TABLES && 0 < k.level && 0 <= i < 512
      ensures Present(Entry(m, BOOT_TABLES[k], i)) <==> Child(k, i) in BOOT_TABLES
      ensures Child(k, i) in BOOT_TABLES ==> FrameOf(Entry(m, BOOT_TABLES[k], i)) == BOOT_TABLES[Child(k, i)]
    {
      BootChild(k, i);
      assert Entry(m, BOOT_TABLES[k], i) == PointerIn(BOOT_TABLES[k], i);
      NotPresent();
      if Child(k, i) in BOOT_TABLES {
        BootFrameSmall(Child(k, i));
        TaggedFrame(BOOT_TABLES[Child(k, i)], BootFlags(k, i));
      }
    }
  }

  lemma NotPresent()
    ensures !Present(0)
  {
  }

  /** Page p is one of the low pages. */
  predicate BootPage(p: nat) {
    p < BOOT_PAGES
  }

  lemma BootLookup(m: Mem, p: nat)
    requires BootEntries(m) && p < USER_LIMIT
    ensures Walk(m, p) == if BootPage(p) then Some(p * 0x1000 + 3) else None
  {
    hide Entry, Walk;
    BootTree(m);
    WalkIsLookup(m, BOOT_TABLES, p);
    if KeyOf(p, 0) in BOOT_TABLES {
      assert KeyOf(p, 0) == Key(0, 0) && p < 512;
      assert Entry(m, TPT0_FRAME, p) == LeafIn(p);
      LowBit(p, 3);
    }
  }

  lemma BootPageFrame(p: nat)
    requires BootPage(p)
    ensures FrameOf(p * 0x1000 + 3) == p
  {
    TaggedFrame(p, 3);
  }

  lemma ScratchKey()
    ensures KeyOf(SCRATCH, 0) in BOOT_TABLES && BOOT_TABLES[KeyOf(SCRATCH, 0)] == KPT0_FRAME
  {
    assert KeyOf(SCRATCH, 0) == Key(0, 0x400_0000);
  }

  lemma LowPages()
    ensures BootPage(PML4_PAGE) && BootPage(KPT0_PAGE)
  {
  }

  /** The boot code's tables are sound whatever the memory map lists above the first 256 frames. */
  lemma BootIsSound(m: Mem, rs: seq<Region>)
    requires BootEntries(m) && Paged(rs) && forall f: nat :: f < 0x100 ==> !FreeFrame(rs, f)
    ensures Sound(Snapshot(m, BOOT_TABLES, rs))
  {
    hide Walk, Tree, Paged, FreeFrame, BootEntries, FrameOf, BOOT_TABLES, KeyOf, BootPage;
    ScratchKey();
    BootTree(m);
    LowPages();
    BootLookup(m, PML4_PAGE);
    BootLookup(m, KPT0_PAGE);
    BootPageFrame(PML4_PAGE);
    BootPageFrame(KPT0_PAGE);
    forall k | k in BOOT_TABLES
      ensures BOOT_TABLES[k] < PHYS_FRAMES && !FreeFrame(rs, BOOT_TABLES[k])
    {
      BootFrameSmall(k);
    }
  }

  /** Entry i of frame f when the boot code, started on m0, has set the entries from `from` on in both
      page tables.  It clears the first four tables; the low half's three it only writes to. */
  ghost function SetSoFar(m0: Mem, f: nat, i: nat, from: nat): nat
    requires i < 512
  {
    if f == PML4_FRAME || f == KPDPT_FRAME || f == KPDT0_FRAME then PointerIn(f, i)
    else if f == KPT0_FRAME then (if i < from then 0 else LeafIn(i))
    else if (f == TPDPT_FRAME || f == TPDT0_FRAME) && i == 0 then PointerIn(f, i)
    else if f == TPT0_FRAME && from <= i < BOOT_PAGES then LeafIn(i)
    else Entry(m0, f, i)
  }

  ghost predicate Set(m0: Mem, m: Mem, from: nat) {
    forall f: nat, i: nat {:trigger Entry(m, f, i)} :: i < 512 ==> Entry(m, f, i) == SetSoFar(m0, f, i, from)
  }

  /** Where the low half's tables are not written, memory was zero. */
  ghost predicate RestClear(m0: Mem) {
    && (forall i: nat {:trigger Entry(m0, TPDPT_FRAME, i)} :: 0 < i < 512 ==> Entry(m0, TPDPT_FRAME, i) == 0)
    && (forall i: nat {:trigger Entry(m0, TPDT0_FRAME, i)} :: 0 < i < 512 ==> Entry(m0, TPDT0_FRAME, i) == 0)
    && Entry(m0, TPT0_FRAME, BOOT_PAGES) == 0
  }

  /** The boot code: the tables are as described if and only if memory was zero where it relies on that. */
  method SetUpTables(m0: Mem) returns (m: Mem)
    ensures Set(m0, m, 0)
    ensures BootEntries(m) <==> RestClear(m0)
    ensures forall f: nat :: IsPointerTable(f) || f == KPT0_FRAME || f == TPT0_FRAME || PageAt(m, f) == PageAt(m0, f)
  {
    hide PokeEntry, Entry, PageAt, PointerIn, LeafIn;
    m := SetPointers(m0);
    var ecx: nat := BOOT_PAGES;
    while ecx > 0
      invariant ecx <= BOOT_PAGES && Set(m0, m, ecx)
      invariant forall f: nat ::
                  IsPointerTable(f) || f == KPT0_FRAME || f == TPT0_FRAME || PageAt(m, f) == PageAt(m0, f)
    {
      ecx := ecx - 1;
      LeafWord(ecx);
      PokeEntryEffect(m, KPT0_FRAME, ecx, ecx * 0x1000 + 3);
      m := PokeEntry(m, KPT0_FRAME, ecx, ecx * 0x1000 + 3);
      PokeEntryEffect(m, TPT0_FRAME, ecx, ecx * 0x1000 + 3);
      m := PokeEntry(m, TPT0_FRAME, ecx, ecx * 0x1000 + 3);
    }
    SetIff(m0, m);
  }

  lemma LeafWord(i: nat)
    requires i < BOOT_PAGES
    ensures i * 0x1000 + 3 < WORD_LIMIT && LeafIn(i) == i * 0x1000 + 3
  {
  }

  lemma SetIff(m0: Mem, m: Mem)
    requires Set(m0, m, 0)
    ensures BootEntries(m) <==> RestClear(m0)
  {
    hide Entry;
    if BootEntries(m) {
      forall i: nat | 0 < i < 512
        ensures Entry(m0, TPDPT_FRAME, i) == 0 && Entry(m0, TPDT0_FRAME, i) == 0
      {
        assert Entry(m, TPDPT_FRAME, i) == 0 && Entry(m, TPDT0_FRAME, i) == 0;
      }
      assert Entry(m, TPT0_FRAME, BOOT_PAGES) == 0;
    }
  }

  /** The first tables cleared, and the six pointers between tables. */
  method SetPointers(m0: Mem) returns (m: Mem)
    ensures Set(m0, m, BOOT_PAGES)
    ensures forall f: nat :: IsPointerTable(f) || f == KPT0_FRAME || PageAt(m, f) == PageAt(m0, f)
  {
    hide PokeEntry, Entry;
    m := m0[PML4_FRAME := ZERO_PAGE][KPDPT_FRAME := ZERO_PAGE][KPDT0_FRAME := ZERO_PAGE][KPT0_FRAME := ZERO_PAGE];
    ClearedEntries(m0, m);
    hide PageAt;
    PokeEntryEffect(m, PML4_FRAME, 0x100, KPDPT_FRAME * 0x1000 + 3);
    m := PokeEntry(m, PML4_FRAME, 0x100, KPDPT_FRAME * 0x1000 + 3);
    PokeEntryEffect(m, KPDPT_FRAME, 0, KPDT0_FRAME * 0x1000 + 3);
    m := PokeEntry(m, KPDPT_FRAME, 0, KPDT0_FRAME * 0x1000 + 3);
    PokeEntryEffect(m, KPDT0_FRAME, 0, KPT0_FRAME * 0x1000 + 3);
    m := PokeEntry(m, KPDT0_FRAME, 0, KPT0_FRAME * 0x1000 + 3);
    PokeEntryEffect(m, PML4_FRAME, 0, TPDPT_FRAME * 0x1000 + 7);
    m := PokeEntry(m, PML4_FRAME, 0, TPDPT_FRAME * 0x1000 + 7);
    PokeEntryEffect(m, TPDPT_FRAME, 0, TPDT0_FRAME * 0x1000 + 7);
    m := PokeEntry(m, TPDPT_FRAME, 0, TPDT0_FRAME * 0x1000 + 7);
    PokeEntryEffect(m, TPDT0_FRAME, 0, TPT0_FRAME * 0x1000 + 7);
    m := PokeEntry(m, TPDT0_FRAME, 0, TPT0_FRAME * 0x1000 + 7);
  }

  lemma ClearedEntries(m0: Mem, m: Mem)
    requires forall f: nat :: PageAt(m, f) == if PML4_FRAME <= f <= KPT0_FRAME then ZERO_PAGE else PageAt(m0, f)
    ensures forall f: nat, i: nat {:trigger Entry(m, f, i)} :: i < 512 ==>
              Entry(m, f, i) == if PML4_FRAME <= f <= KPT0_FRAME then 0 else Entry(m0, f, i)
  {
    forall f: nat, i: nat | i < 512
      ensures Entry(m, f, i) == if PML4_FRAME <= f <= KPT0_FRAME then 0 else Entry(m0, f, i)
    {
      if PML4_FRAME <= f <= KPT0_FRAME { ZeroFrameHasNoEntries(m, f); }
    }
  }

  // ----- the machine that starts from these tables -----

  /** The low pages are the user pages that the boot code maps; nothing else of user space is mapped. */
  lemma BootView(m: Mem)
    requires BootEntries(m)
    ensures View(m, [], true)
    ensures forall p: nat :: USER_FIRST <= p < USER_LIMIT ==> (Walk(m, p).Some? <==> LowPage(p))
  {
    hide Walk, BootEntries;
    forall p: nat | p < USER_LIMIT
      ensures Walk(m, p) == if BootPage(p) then Some(p * 0x1000 + 3) else None
    {
      BootLookup(m, p);
    }
  }

  lemma BootHalves(k: Key, i: nat)
    requires k in BOOT_TABLES && 0 < k.level && i < 512 && Child(k, i) in BOOT_TABLES && InUserHalf(Child(k, i))
    ensures BootFlags(k, i) == 7
  {
  }

  /** The tables of the low half hang from entries open to programs. */
  lemma BootOpen(m: Mem, rs: seq<Region>)
    requires BootEntries(m)
    ensures UserOpen(Snapshot(m, BOOT_TABLES, rs))
  {
    hide Entry, PointerIn, InUserHalf, BOOT_TABLES, UserBits;
    forall k, i: nat | Upper(BOOT_TABLES, k, i) && InUserHalf(Child(k, i))
      ensures UserBits(Entry(m, BOOT_TABLES[k], i))
    {
      BootChild(k, i);
      BootHalves(k, i);
      assert Entry(m, BOOT_TABLES[k], i) == PointerIn(BOOT_TABLES[k], i) == BOOT_TABLES[Child(k, i)] * 0x1000 + 7;
      LowThree(Entry(m, BOOT_TABLES[k], i), BOOT_TABLES[Child(k, i)] * 0x200, 7);
    }
  }

  /** From the boot code to a kernel without threads.  Every spawn, switch, fault and store from here on
      keeps the invariant, and the first switch takes the low pages over. */
  method StartKernel(m0: Mem, pages: FreeList) returns (k: Kernel)
    requires RestClear(m0) && pages.Valid() && Paged(pages.Regions())
    requires forall f: nat :: f < 0x100 ==> !FreeFrame(pages.Regions(), f)
    ensures fresh(k) && k.Valid() && k.queue.ring == [] && !k.ringLocked && k.pager.mmu.pages == pages
    ensures k.processes.Linked() && k.processes.ring == [] && !k.processes.locked
  {
    hide Walk, Tree, Paged, FreeFrame, BootEntries, RestClear, Set, BOOT_TABLES, Sound, View, UserOpen,
      Consistent;
    var m := SetUpTables(m0);
    BootView(m);
    BootIsSound(m, pages.Regions());
    BootOpen(m, pages.Regions());
    var mmu := new Mmu(m, BOOT_TABLES, pages);
    assert mmu.Snap() == Snapshot(m, BOOT_TABLES, pages.Regions());
    var pager := new Pager(mmu);
    k := new Kernel(pager);
  }

  /** Had a low page been used before, so that its translation was cached, the first switch would leave it
      stale: the program would go on reaching the frame that the boot code mapped there. */
  lemma CachedLowPageGoesStale(s: Snapshot, t: Snapshot, c: Cache, d: Cache, pbase: nat, pages: nat)
    requires BootEntries(s.mem) && c == Cache(map[USER_FIRST := USER_FIRST * 0x1000 + 3], {})
    requires 0x200 <= pages && pbase % 0x1000 == 0 && Swapped(s, t, c, d, [], [CodeExtent(pbase, pages)])
    ensures Fresh(s.mem, c.tlb)
    ensures USER_FIRST in d.stale && USER_FIRST in d.tlb && FrameOf(d.tlb[USER_FIRST]) == USER_FIRST
    ensures Walk(t.mem, USER_FIRST) == Some(pbase + USER_FLAGS)
  {
    hide Walk, BootEntries, Extends, TablesForAll, FrameOf;
    BootLookup(s.mem, USER_FIRST);
    BootPageFrame(USER_FIRST);
    CoverNothing();
    OneCovers(CodeExtent(pbase, pages), USER_FIRST);
    var es := [CodeExtent(pbase, pages)];
    assert Mapped(es, USER_FIRST) == Some(CodeExtent(pbase, pages).EntryFor(USER_FIRST));
  }
}
