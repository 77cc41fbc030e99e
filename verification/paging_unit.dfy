/** The paging unit and the kernel code that edits its tables.

    The tables are reached like any other memory, by virtual address: the PML4 and the page
    table of the scratch window through low identity-mapped pages, every other table by
    pointing the scratch page at it.  Translations are cached in the TLB on first use and stay
    there until INVLPG (Intel SDM volume 3A, section 4.10). */
module PagingUnit {
  import opened Bytes
  import opened Options
  import opened PageTables
  import opened PageManager
  import opened FrameSupply

  const PML4T_LOC := 0x2000
  const KPT0_0_LOC := 0x5000
  const KSPACE_LOC := 0xFFFF_8000_0000_0000
  const NON_CANON_SIZE := 0xFFFF_0000_0000_0000
  const VSPACE := 0x1_0000_0000_0000       // 48-bit addresses, upper half folded down

  const PML4_PAGE := 0x2
  const KPT0_PAGE := 0x5

  /** Page number of a virtual address, canonical or folded. */
  function PageNo(va: nat): nat {
    (if va >= KSPACE_LOC then va - NON_CANON_SIZE else va) / 0x1000
  }

  /** Offset of an address in its page. */
  function InPage(va: nat): (o: nat)
    ensures o < 0x1000
  {
    va % 0x1000
  }

  predicate Aligned(va: nat) {
    va % 8 == 0
  }

  /** Which 8-byte word of its page an address lies in. */
  function WordNo(va: nat): (i: nat)
    ensures i < 512
  {
    va % 0x1000 / 8
  }

  lemma ScratchByte(o: nat)
    requires o < 0x1000
    ensures PageNo(KSPACE_LOC + o) == SCRATCH && InPage(KSPACE_LOC + o) == o
  {
  }

  function Pow2(n: nat): (p: nat)
    ensures p > 0
  {
    if n == 0 then 1 else 2 * Pow2(n - 1)
  }

  /** Address of the entry for baddr in the table seen at address parent. */
  function GetEntryAddr(baddr: nat, parent: nat, shf: nat): nat {
    parent + baddr / Pow2(shf) * 8 % 0x1000
  }

  lemma Pow2Values()
    ensures Pow2(12) == 0x1000 && Pow2(21) == 0x20_0000
    ensures Pow2(30) == 0x4000_0000 && Pow2(39) == 0x80_0000_0000
  {
    assert Pow2(10) == 0x400;
    assert Pow2(20) == 0x10_0000;
  }

  lemma ShiftIsUnit(baddr: nat, level: nat)
    requires level <= 3
    ensures baddr / Pow2(12 + 9 * level) == baddr / 0x1000 / Unit(level)
  {
    hide Pow2;
    Pow2Values();
    match level
    case 0 =>
    case 1 => assert 12 + 9 * level == 21;
    case 2 => assert 12 + 9 * level == 30;
    case 3 => assert 12 + 9 * level == 39;
  }

  lemma MaskIsSlot(q: nat)
    ensures q * 8 % 0x1000 == q % 512 * 8
  {
  }

  /** The shift-and-mask picks the slot that the walk uses. */
  lemma EntryAddrIsSlot(baddr: nat, parent: nat, level: nat)
    requires baddr < VSPACE && level <= 3
    ensures GetEntryAddr(baddr, parent, 12 + 9 * level) == parent + 8 * Slot(baddr / 0x1000, level)
  {
    hide Pow2, Unit;
    ShiftIsUnit(baddr, level);
    MaskIsSlot(baddr / Pow2(12 + 9 * level));
  }

  ghost predicate IsTable(T: Tables, f: nat) {
    f in T.Values
  }

  /** Flags of an entry that maps something: they fit below the frame address, and the present
      bit is set. */
  predicate GoodFlags(fl: nat) {
    fl % 2 == 1 && fl < 0x1000
  }

  /** What an edit may touch, apart from the translations it is asked for. */
  datatype Snapshot = Snapshot(mem: Mem, tables: Tables, regions: seq<Region>)

  /** The TLB at one moment, and the pages recorded as stale in it. */
  datatype Cache = Cache(tlb: map<nat, nat>, stale: set<nat>)

  /** alloc_pages answers 0 when no frame is free, and its callers here use the answer all the same: one
      more table can be hung in frame 0, if it holds none yet. */
  ghost function Spare(s: Snapshot): nat {
    if IsTable(s.tables, 0) then 0 else 1
  }

  /** From s to t the tree grew by the tables `need` that were missing, each in a frame taken
      from the free list, or the last one in frame 0; frames that hold no table kept their bytes. */
  ghost predicate Extends(s: Snapshot, t: Snapshot, need: set<Key>) {
    && TablesGrew(s.tables, t.tables, need)
    && NewTablesWereFree(s, t)
    && FreeButTables(s, t)
    && CountKept(s, t)
    && OthersKept(s, t)
  }

  /** Each new table used up one frame, frame 0 only after all free ones. */
  ghost predicate CountKept(s: Snapshot, t: Snapshot) {
    && FreeCount(t.regions) + |t.tables| + Spare(t) == FreeCount(s.regions) + |s.tables| + Spare(s)
    && (IsTable(t.tables, 0) ==> IsTable(s.tables, 0) || FreeCount(t.regions) == 0)
  }

  ghost predicate TablesGrew(T: Tables, T': Tables, need: set<Key>) {
    T'.Keys == T.Keys + need && forall k :: k in T ==> T'[k] == T[k]
  }

  ghost predicate NewTablesWereFree(s: Snapshot, t: Snapshot) {
    forall k :: k in t.tables && k !in s.tables ==> FreeFrame(s.regions, t.tables[k]) || t.tables[k] == 0
  }

  ghost predicate FreeButTables(s: Snapshot, t: Snapshot) {
    forall f :: FreeFrame(t.regions, f) <==> FreeFrame(s.regions, f) && !IsTable(t.tables, f)
  }

  ghost predicate OthersKept(s: Snapshot, t: Snapshot) {
    forall f: nat :: !IsTable(t.tables, f) ==> PageAt(t.mem, f) == PageAt(s.mem, f)
  }

  lemma FramesPersist(T: Tables, T': Tables)
    requires forall k :: k in T ==> k in T' && T'[k] == T[k]
    ensures forall f :: IsTable(T, f) ==> IsTable(T', f)
  {
    forall f | IsTable(T, f)
      ensures IsTable(T', f)
    {
      var k :| k in T && T[k] == f;
      assert T'[k] == f;
    }
  }

  lemma NewTablesTransitive(s: Snapshot, t: Snapshot, u: Snapshot, need: set<Key>, more: set<Key>)
    requires TablesGrew(s.tables, t.tables, need) && TablesGrew(t.tables, u.tables, more)
    requires NewTablesWereFree(s, t) && NewTablesWereFree(t, u) && FreeButTables(s, t)
    ensures TablesGrew(s.tables, u.tables, need + more) && NewTablesWereFree(s, u)
  {
    hide FreeFrame, IsTable;
    forall k | k in u.tables && k !in s.tables
      ensures FreeFrame(s.regions, u.tables[k]) || u.tables[k] == 0
    {
      if k in t.tables {
        assert u.tables[k] == t.tables[k];
      } else {
        assert FreeFrame(t.regions, u.tables[k]) || u.tables[k] == 0;
      }
    }
  }

  lemma KeptTransitive(s: Snapshot, t: Snapshot, u: Snapshot, more: set<Key>)
    requires TablesGrew(t.tables, u.tables, more)
    requires FreeButTables(s, t) && FreeButTables(t, u) && OthersKept(s, t) && OthersKept(t, u)
    ensures FreeButTables(s, u) && OthersKept(s, u)
  {
    hide FreeFrame, PageAt, IsTable;
    FramesPersist(t.tables, u.tables);
  }

  lemma CountTransitive(s: Snapshot, t: Snapshot, u: Snapshot, more: set<Key>)
    requires TablesGrew(t.tables, u.tables, more) && CountKept(s, t) && CountKept(t, u)
    ensures CountKept(s, u)
  {
    hide FreeCount, IsTable;
    FramesPersist(t.tables, u.tables);
    CardSubset(t.tables.Keys, u.tables.Keys);
    assert |t.tables| == |t.tables.Keys| && |u.tables| == |u.tables.Keys|;
  }

  lemma CardSubset<T>(a: set<T>, b: set<T>)
    requires a <= b
    ensures |a| <= |b|
  {
    assert b == a + (b - a);
  }

  lemma ExtendsTransitive(s: Snapshot, t: Snapshot, u: Snapshot, need: set<Key>, more: set<Key>)
    requires Extends(s, t, need) && Extends(t, u, more)
    ensures Extends(s, u, need + more)
  {
    hide TablesGrew, NewTablesWereFree, FreeButTables, OthersKept, CountKept;
    NewTablesTransitive(s, t, u, need, more);
    KeptTransitive(s, t, u, more);
    CountTransitive(s, t, u, more);
  }

  // ----- the entries that tables hang from -----

  /** A table hangs from slot i of table k. */
  ghost predicate Upper(T: Tables, k: Key, i: nat) {
    k in T && 0 < k.level && i < 512 && Child(k, i) in T
  }

  ghost predicate HangsAt(s: Snapshot, t: Snapshot, F: set<nat>, k: Key, i: nat)
    requires Upper(t.tables, k, i)
  {
    if Child(k, i) in s.tables then k in s.tables && Entry(t.mem, t.tables[k], i) == Entry(s.mem, s.tables[k], i)
    else Entry(t.mem, t.tables[k], i) % 0x1000 in F
  }

  /** From s to t tables were hung from entries with flags among F, and the entries that tables hung from
      before are the same. */
  ghost predicate Hangs(s: Snapshot, t: Snapshot, F: set<nat>) {
    forall k, i: nat :: Upper(t.tables, k, i) ==> HangsAt(s, t, F, k, i)
  }

  lemma HangsTransitive(s: Snapshot, t: Snapshot, u: Snapshot, F: set<nat>, G: set<nat>)
    requires Hangs(s, t, F) && Hangs(t, u, G) && s.tables.Keys <= t.tables.Keys
    ensures Hangs(s, u, F + G)
  {
    hide Entry;
    forall k, i: nat | Upper(u.tables, k, i)
      ensures HangsAt(s, u, F + G, k, i)
    {
      assert HangsAt(t, u, G, k, i);
      assert Child(k, i) in s.tables ==> Child(k, i) in t.tables.Keys;
      if Child(k, i) in t.tables { assert Upper(t.tables, k, i) && HangsAt(s, t, F, k, i); }
    }
  }

  lemma ExtendsKeepsTables(s: Snapshot, t: Snapshot, need: set<Key>)
    requires Extends(s, t, need)
    ensures t.tables.Keys == s.tables.Keys + need
  {
    hide NewTablesWereFree, FreeButTables, CountKept, OthersKept;
  }

  /** Both at once. */
  lemma GrowthTransitive(s: Snapshot, t: Snapshot, u: Snapshot, need: set<Key>, more: set<Key>, F: set<nat>,
                         G: set<nat>)
    requires Extends(s, t, need) && Extends(t, u, more) && Hangs(s, t, F) && Hangs(t, u, G)
    ensures Extends(s, u, need + more) && Hangs(s, u, F + G)
  {
    hide Extends, Hangs;
    ExtendsTransitive(s, t, u, need, more);
    ExtendsKeepsTables(s, t, need);
    HangsTransitive(s, t, u, F, G);
  }

  lemma HangsNothing(s: Snapshot)
    requires Sound(s)
    ensures Hangs(s, s, {})
  {
    hide Sound, Entry;
  }

  lemma HangsMore(s: Snapshot, t: Snapshot, F: set<nat>, G: set<nat>)
    requires Hangs(s, t, F) && F <= G
    ensures Hangs(s, t, G)
  {
    hide Entry;
    forall k, i: nat | Upper(t.tables, k, i)
      ensures HangsAt(s, t, G, k, i)
    {
      assert HangsAt(s, t, F, k, i);
    }
  }

  /** With no table new, no flags are. */
  lemma HangsNone(s: Snapshot, t: Snapshot, F: set<nat>)
    requires Hangs(s, t, F) && t.tables.Keys == s.tables.Keys
    ensures Hangs(s, t, {})
  {
    hide Entry;
    forall k, i: nat | Upper(t.tables, k, i)
      ensures HangsAt(s, t, {}, k, i)
    {
      assert HangsAt(s, t, F, k, i) && Child(k, i) in s.tables.Keys;
    }
  }

  /** Edits of leaf entries are none of entries that tables hang from. */
  lemma LeafHangs(s: Snapshot, m: Mem, k: Key, i: nat, v: nat)
    requires Sound(s) && k.level == 0 && Edited(s.mem, m, s.tables, k, i, v)
    ensures Hangs(s, s.(mem := m), {})
  {
    hide Sound, Entry;
    forall j, l: nat | Upper(s.tables, j, l)
      ensures HangsAt(s, s.(mem := m), {}, j, l)
    {
      assert Entry(m, s.tables[j], l) == Entry(s.mem, s.tables[j], l);
    }
  }

  /** A new table hangs from the one new entry, and nothing hangs from the new table. */
  lemma GrownHangs(s: Snapshot, m: Mem, k: Key, i: nat, r: nat, rs: seq<Region>)
    requires Sound(s) && Grown(s.mem, m, s.tables, k, i, r) && Child(k, i) !in s.tables
    ensures Hangs(s, Snapshot(m, s.tables[Child(k, i) := FrameOf(r)], rs), {r % 0x1000})
  {
    hide Entry, Walk, Paged, FreeFrame, WindowsOpen, FrameOf, Present;
    var c, t := Child(k, i), Snapshot(m, s.tables[Child(k, i) := FrameOf(r)], rs);
    forall j, l: nat | Upper(t.tables, j, l)
      ensures HangsAt(s, t, {r % 0x1000}, j, l)
    {
      assert Parent(Child(j, l)) == j;
      assert j != c;
      assert Entry(m, s.tables[j], l) == if j == k && l == i then r else Entry(s.mem, s.tables[j], l);
    }
  }

  /** No cached translation is stale. */
  ghost predicate Fresh(m: Mem, tlb: map<nat, nat>) {
    forall p :: p in tlb ==> p < VPAGES && Walk(m, p) == Some(tlb[p])
  }

  /** Every page but the scratch page translates as before. */
  ghost predicate SameWalks(m: Mem, m': Mem) {
    forall p :: 0 <= p < VPAGES && p != SCRATCH ==> Walk(m', p) == Walk(m, p)
  }

  /** Every page but the reserved ones is cached as before. */
  ghost predicate CachedFrom(tlb: map<nat, nat>, tlb': map<nat, nat>) {
    forall p :: Reserved(p) || ((p in tlb' <==> p in tlb) && (p in tlb' ==> tlb'[p] == tlb[p]))
  }

  lemma StepsCompose(m: Mem, m1: Mem, m2: Mem, tlb: map<nat, nat>, tlb1: map<nat, nat>, tlb2: map<nat, nat>)
    requires SameWalks(m, m1) && SameWalks(m1, m2) && CachedFrom(tlb, tlb1) && CachedFrom(tlb1, tlb2)
    ensures SameWalks(m, m2) && CachedFrom(tlb, tlb2)
  {
    hide Walk;
  }

  /** After an edit that retranslates only the scratch page, with that page flushed. */
  lemma FreshAfterEdit(m: Mem, m': Mem, tlb: map<nat, nat>, stale: set<nat>, r: nat)
    requires Fresh(m, tlb - stale) && SCRATCH !in stale
    requires SameWalks(m, m') && Walk(m', SCRATCH) == Some(r)
    ensures Fresh(m', (tlb - {SCRATCH}) - stale)
    ensures Fresh(m', (tlb - {SCRATCH})[SCRATCH := r] - stale)
  {
    hide Walk;
    assert forall q: nat :: q in tlb && q !in stale ==> q in tlb - stale;
  }

  lemma CachingKeepsFresh(m: Mem, tlb: map<nat, nat>, stale: set<nat>, p: nat, e: nat)
    requires Fresh(m, tlb - stale) && p < VPAGES && p !in stale
    requires p in tlb ==> e == tlb[p]
    requires p !in tlb ==> Walk(m, p) == Some(e)
    ensures Fresh(m, tlb[p := e] - stale)
  {
    hide Walk;
    assert forall q: nat :: q in tlb && q !in stale ==> q in tlb - stale;
  }

  lemma FreshAgrees(m: Mem, tlb: map<nat, nat>, stale: set<nat>, p: nat)
    requires Fresh(m, tlb - stale) && p !in stale && p in tlb
    ensures Walk(m, p) == Some(tlb[p])
  {
    hide Walk;
    assert p in tlb - stale;
  }

  lemma FlushKeepsFresh(m: Mem, tlb: map<nat, nat>, stale: set<nat>, p: nat)
    requires Fresh(m, tlb - stale)
    ensures Fresh(m, (tlb - {p}) - (stale - {p}))
  {
    hide Walk;
    assert forall q :: q in (tlb - {p}) - (stale - {p}) ==> q in tlb - stale;
  }

  ghost predicate Maps(m: Mem, vp: nat, f: nat) {
    Walk(m, vp).Some? && FrameOf(Walk(m, vp).value) == f
  }

  /** The tables form a tree of frames that the free list does not contain, and the kernel's
      windows onto the PML4 and onto the scratch page's table are in place. */
  ghost predicate Sound(s: Snapshot) {
    && Paged(s.regions)
    && Tree(s.mem, s.tables)
    && (forall k :: k in s.tables ==> s.tables[k] < PHYS_FRAMES && !FreeFrame(s.regions, s.tables[k]))
    && KeyOf(SCRATCH, 0) in s.tables && s.tables[KeyOf(SCRATCH, 0)] == KPT0_FRAME
    && WindowsOpen(s.mem)
  }

  /** The low pages at which the kernel reaches the PML4 and the scratch page's table. */
  predicate WindowOnto(p: nat, f: nat) {
    (p == PML4_PAGE && f == PML4_FRAME) || (p == KPT0_PAGE && f == KPT0_FRAME)
  }

  ghost predicate WindowsOpen(m: Mem) {
    forall p, f :: WindowOnto(p, f) ==> Maps(m, p, f)
  }

  lemma WindowsThere(s: Snapshot)
    requires Sound(s)
    ensures Maps(s.mem, PML4_PAGE, PML4_FRAME) && Maps(s.mem, KPT0_PAGE, KPT0_FRAME)
  {
    hide Walk, Tree, Paged, FreeFrame;
    assert WindowOnto(PML4_PAGE, PML4_FRAME) && WindowOnto(KPT0_PAGE, KPT0_FRAME);
  }

  /** Enough frames for the tables `need`: free ones and, if it holds no table, frame 0. */
  ghost predicate Affords(s: Snapshot, need: set<Key>) {
    |s.tables.Keys + need| <= FreeCount(s.regions) + |s.tables| + Spare(s)
  }

  /** Enough for one more. */
  ghost predicate CanGrow(s: Snapshot) {
    FreeCount(s.regions) > 0 || !IsTable(s.tables, 0)
  }

  lemma NothingExtends(s: Snapshot)
    requires Sound(s)
    ensures Extends(s, s, {})
  {
    hide Walk, Tree, Paged, FreeFrame, FreeCount, PageAt, Maps;
    assert forall f :: FreeFrame(s.regions, f) ==> !IsTable(s.tables, f);
  }

  lemma AffordsLess(s: Snapshot, need: set<Key>, less: set<Key>)
    requires Affords(s, need) && less <= need
    ensures Affords(s, less)
  {
    CardSubset(s.tables.Keys + less, s.tables.Keys + need);
  }

  /** Frames for two rounds of growing are there if and only if, once the first is done, there are frames for
      the second: so a sequence of growths finds its frames exactly if each one does. */
  lemma AffordsStepwise(s: Snapshot, t: Snapshot, need: set<Key>, more: set<Key>)
    requires Extends(s, t, need)
    ensures Affords(s, need + more) <==> Affords(t, more)
  {
    hide FreeCount, IsTable, NewTablesWereFree, FreeButTables, OthersKept;
    assert t.tables.Keys + more == s.tables.Keys + (need + more);
  }

  lemma AffordsOneIff(s: Snapshot, k: Key)
    ensures Affords(s, {k}) <==> k in s.tables || CanGrow(s)
  {
    if k in s.tables {
      assert s.tables.Keys + {k} == s.tables.Keys;
    } else {
      assert |s.tables.Keys + {k}| == |s.tables.Keys| + 1;
    }
  }

  class Mmu {
    var mem: Mem
    var tlb: map<nat, nat>
    ghost var tables: Tables
    /** Pages edited while cached and not flushed since. */
    ghost var stale: set<nat>
    const pages: FreeList

    constructor (mem: Mem, ghost tables: Tables, pages: FreeList)
      ensures this.mem == mem && this.tables == tables && this.pages == pages && tlb == map[] && stale == {}
    {
      this.mem, this.tables, this.pages, tlb, stale := mem, tables, pages, map[], {};
    }

    /** The entry an access to page vp goes through: the cached one if there is one. */
    function Sees(vp: nat): Option<nat>
      reads this
    {
      if vp in tlb then Some(tlb[vp]) else Walk(mem, vp)
    }

    /** Only pages recorded as stale can have stale translations, and no reserved page is. */
    ghost predicate Coherent()
      reads this
    {
      Fresh(mem, tlb - stale) && forall p :: p in stale ==> !Reserved(p)
    }

    ghost function Snap(): Snapshot
      reads this, pages, pages.chain
    {
      Snapshot(mem, tables, pages.Regions())
    }

    ghost function Cached(): Cache
      reads this
    {
      Cache(tlb, stale)
    }

    ghost predicate Valid()
      reads this, pages, pages.chain
    {
      pages.Valid() && Sound(Snap())
    }

    // ----- accesses -----

    method Access(vp: nat) returns (e: nat)
      requires Sees(vp).Some?
      modifies this`tlb
      ensures e == old(Sees(vp)).value && tlb == old(tlb)[vp := e]
    {
      if vp !in tlb {
        tlb := tlb[vp := Walk(mem, vp).value];
      }
      e := tlb[vp];
    }

    method LoadQ(va: nat) returns (v: nat)
      requires Aligned(va) && Sees(PageNo(va)).Some?
      modifies this`tlb
      ensures v == Entry(mem, FrameOf(old(Sees(PageNo(va))).value), WordNo(va))
      ensures tlb == old(tlb)[PageNo(va) := old(Sees(PageNo(va))).value]
    {
      var e := Access(PageNo(va));
      v := Entry(mem, FrameOf(e), WordNo(va));
    }

    method StoreQ(va: nat, v: nat)
      requires Aligned(va) && Sees(PageNo(va)).Some?
      modifies this`tlb, this`mem
      ensures mem == PokeEntry(old(mem), FrameOf(old(Sees(PageNo(va))).value), WordNo(va), v)
      ensures tlb == old(tlb)[PageNo(va) := old(Sees(PageNo(va))).value]
    {
      var e := Access(PageNo(va));
      mem := PokeEntry(mem, FrameOf(e), WordNo(va), v);
    }

    method StoreB(va: nat, b: Byte)
      requires Sees(PageNo(va)).Some?
      modifies this`tlb, this`mem
      ensures mem == PokeByte(old(mem), FrameOf(old(Sees(PageNo(va))).value), InPage(va), b)
      ensures tlb == old(tlb)[PageNo(va) := old(Sees(PageNo(va))).value]
    {
      var e := Access(PageNo(va));
      mem := PokeByte(mem, FrameOf(e), InPage(va), b);
    }

    method Invlpg(va: nat)
      modifies this`tlb, this`stale
      ensures tlb == old(tlb) - {PageNo(va)} && stale == old(stale) - {PageNo(va)}
      ensures old(Coherent()) ==> Coherent()
      ensures old(Valid()) ==> Valid() && Snap() == old(Snap())
    {
      hide Walk, Fresh, Sound, FreeList.Valid, FreeList.Regions;
      if Coherent() { FlushKeepsFresh(mem, tlb, stale, PageNo(va)); }
      tlb := tlb - {PageNo(va)};
      stale := stale - {PageNo(va)};
    }

    // ----- editing the tables -----

    /** Point the scratch page at the frame of val. */
    method PageToKpt0(val: nat)
      requires val < WORD_LIMIT && Sees(KPT0_PAGE).Some?
      modifies this`tlb, this`mem, this`stale
      ensures stale == old(stale) - {SCRATCH}
      ensures mem == PokeEntry(old(mem), FrameOf(old(Sees(KPT0_PAGE)).value), 0, val)
      ensures tlb == old(tlb)[KPT0_PAGE := old(Sees(KPT0_PAGE)).value] - {SCRATCH}
    {
      hide Walk, PokeEntry, FrameOf, Fresh, Sound, FreeList.Valid, FreeList.Regions;
      StoreQ(KPT0_0_LOC, val);
      Invlpg(KSPACE_LOC);
    }

    /** Clear the frame behind the scratch page, byte by byte. */
    method ZeroScratch(ghost r: nat)
      requires SCRATCH !in tlb && Walk(mem, SCRATCH) == Some(r)
      modifies this`tlb, this`mem
      ensures PageAt(mem, FrameOf(r)) == ZERO_PAGE
      ensures forall f: nat :: f != FrameOf(r) ==> PageAt(mem, f) == PageAt(old(mem), f)
      ensures tlb == old(tlb)[SCRATCH := r]
    {
      hide Walk, TableOf, Entry, FrameOf, PageNo, InPage;
      var i := 0;
      while i < 0x1000
        invariant 0 <= i <= 0x1000
        invariant i == 0 ==> mem == old(mem) && tlb == old(tlb)
        invariant i > 0 ==> tlb == old(tlb)[SCRATCH := r]
        invariant forall j :: 0 <= j < i ==> PageAt(mem, FrameOf(r))[j] == 0
        invariant forall f: nat :: f != FrameOf(r) ==> PageAt(mem, f) == PageAt(old(mem), f)
      {
        ScratchByte(i);
        StoreB(KSPACE_LOC + i, 0);
        i := i + 1;
      }
    }

    /** parent is an address at which the frame f can be edited. */
    ghost predicate Window(parent: nat, f: nat)
      reads this
    {
      || (parent == PML4T_LOC && f == PML4_FRAME)
      || (parent == KSPACE_LOC && Maps(mem, SCRATCH, f))
    }

    lemma WindowSees(parent: nat, f: nat)
      requires Valid() && Coherent() && Window(parent, f)
      ensures Sees(PageNo(parent)).Some? && FrameOf(Sees(PageNo(parent)).value) == f
      ensures PageNo(parent) == PML4_PAGE || PageNo(parent) == SCRATCH
    {
      hide Walk, Sound;
      WindowsThere(Snap());
    }

    /** Hang the frame that alloc_pages answers under an absent entry and point the scratch page at it.
        The frame may hold anything: what is below the entry is not a table yet. */
    method HangFrame(eaddr: nat, ghost k: Key, ghost i: nat, fl: nat) returns (r: nat)
      requires Valid() && Coherent() && Absent(Snap(), k, i)
      requires Aligned(eaddr) && WordNo(eaddr) == i
      requires Sees(PageNo(eaddr)).Some? && FrameOf(Sees(PageNo(eaddr)).value) == tables[k]
      requires PageNo(eaddr) == PML4_PAGE || PageNo(eaddr) == SCRATCH
      requires GoodFlags(fl)
      modifies this`mem, this`tlb, this`stale, pages, pages.repr
      ensures pages.Valid() && pages.repr == old(pages.repr) && stale == old(stale)
      ensures (r - fl, pages.Regions()) == Allocated(old(pages.Regions()), 1)
      ensures mem == Hung(old(Snap()), k, i, r)
      ensures Walk(mem, SCRATCH) == Some(r) && SCRATCH !in tlb
      ensures Fresh(old(mem), tlb - stale) && CachedFrom(old(tlb), tlb)
    {
      hide Sound, Walk, Allocated, PokeEntry, FrameOf, FreeCount, FreeFrame, Paged, PageAt, Entry,
        FreeList.Regions, FreeList.Valid, RegionsOf, Present, Child, GoodFlags, Aligned, WordNo, PageNo, Fresh;
      ghost var s, e1 := Snap(), Sees(PageNo(eaddr)).value;
      GivenFrame(s, fl);
      var a := pages.AllocPages(1);
      r := a + fl;
      BeforeClearing(s, k, i, r);
      ghost var e2 := Walk(mem, KPT0_PAGE).value;
      if KPT0_PAGE in tlb { FreshAgrees(mem, tlb, stale, KPT0_PAGE); }
      if PageNo(eaddr) in tlb { FreshAgrees(mem, tlb, stale, PageNo(eaddr)); }
      CachingKeepsFresh(mem, tlb, stale, PageNo(eaddr), e1);
      CachingKeepsFresh(mem, tlb[PageNo(eaddr) := e1], stale, KPT0_PAGE, e2);
      FlushKeepsFresh(mem, tlb[PageNo(eaddr) := e1][KPT0_PAGE := e2], stale, SCRATCH);
      StoreQ(eaddr, r);
      PageToKpt0(r);
      assert stale == old(stale);
    }

    /** An absent entry gets a table; its frame is cleared through the scratch page.  The tables are a
        tree with the new one in it if and only if a frame was free or frame 0 held no table. */
    method AddTable(eaddr: nat, ghost k: Key, ghost i: nat, fl: nat) returns (r: nat)
      requires Valid() && Coherent() && Absent(Snap(), k, i)
      requires Aligned(eaddr) && WordNo(eaddr) == i
      requires Sees(PageNo(eaddr)).Some? && FrameOf(Sees(PageNo(eaddr)).value) == tables[k]
      requires PageNo(eaddr) == PML4_PAGE || PageNo(eaddr) == SCRATCH
      requires GoodFlags(fl)
      modifies this`mem, this`tlb, this`tables, this`stale, pages, pages.repr
      ensures stale == old(stale) && pages.Valid() && pages.repr == old(pages.repr)
      ensures Cleared(old(Snap()), k, i, r, mem) && (r - fl, pages.Regions()) == Allocated(old(pages.Regions()), 1)
      ensures GrowsTo(mem, Child(k, i)) <==> CanGrow(old(Snap()))
      ensures CanGrow(old(Snap())) ==>
                && Valid() && Coherent() && Extends(old(Snap()), Snap(), {Child(k, i)})
                && Hangs(old(Snap()), Snap(), {fl})
                && Child(k, i) in tables && Walk(mem, SCRATCH) == Some(r) && FrameOf(r) == tables[Child(k, i)]
                && SameWalks(old(mem), mem) && CachedFrom(old(tlb), tlb)
    {
      hide Sound, Extends, Hangs, Walk, Allocated, PokeEntry, FrameOf, FreeCount, FreeFrame, Paged, PageAt, Entry, Hung,
        FreeList.Regions, FreeList.Valid, RegionsOf, Present, Child, SameWalks, GoodFlags, Aligned, WordNo, PageNo,
        Fresh, CanGrow, GrowsTo;
      ghost var s := Snap();
      r := HangFrame(eaddr, k, i, fl);
      ghost var tlb1 := tlb;
      ZeroScratch(r);
      GrowthIff(s, k, i, fl, mem);
      if CanGrow(s) {
        AfterClearing(s, k, i, fl, mem);
        FreshAfterEdit(s.mem, mem, tlb1, stale, r);
        assert tlb1 - {SCRATCH} == tlb1;
        tables := tables[Child(k, i) := FrameOf(r)];
        assert Snap() == Snapshot(mem, s.tables[Child(k, i) := FrameOf(r)], Allocated(s.regions, 1).1);
      }
    }

    /** Make the table below the entry for baddr editable at the returned address, creating it
        if it is missing.  That works out if and only if there is a frame for it. */
    method CheckTable(baddr: nat, parent: nat, shf: nat, fl: nat, ghost level: nat) returns (t: nat)
      requires Valid() && Coherent()
      requires baddr < VSPACE && 1 <= level <= 3 && shf == 12 + 9 * level
      requires KeyOf(baddr / 0x1000, level) in tables
      requires Window(parent, tables[KeyOf(baddr / 0x1000, level)])
      requires GoodFlags(fl)
      modifies this`mem, this`tlb, this`tables, this`stale, pages, pages.repr
      ensures stale == old(stale) && pages.Valid() && pages.repr == old(pages.repr)
      ensures GrowsTo(mem, KeyOf(baddr / 0x1000, level - 1)) <==>
              Affords(old(Snap()), {KeyOf(baddr / 0x1000, level - 1)})
      ensures Affords(old(Snap()), {KeyOf(baddr / 0x1000, level - 1)}) ==>
                && Valid() && Coherent() && Extends(old(Snap()), Snap(), {KeyOf(baddr / 0x1000, level - 1)})
                && Hangs(old(Snap()), Snap(), {fl})
                && KeyOf(baddr / 0x1000, level - 1) in tables && Window(t, tables[KeyOf(baddr / 0x1000, level - 1)])
                && SameWalks(old(mem), mem) && CachedFrom(old(tlb), tlb)
    {
      hide Sound, Extends, Hangs, Walk, Allocated, PokeEntry, FrameOf, FreeCount, FreeFrame, Paged, PageAt, Entry,
        FreeList.Regions, FreeList.Valid, RegionsOf, GetEntryAddr, Affords, Present, SameWalks, Absent, Fresh,
        GoodFlags, Aligned, WordNo, PageNo, Slot, CanGrow, GrowsTo, Hung;
      ghost var s := Snap();
      ghost var k, i := KeyOf(baddr / 0x1000, level), Slot(baddr / 0x1000, level);
      KeyLadder(baddr / 0x1000, level - 1);
      EntryAddrIsSlot(baddr, parent, level);
      WindowSees(parent, tables[k]);
      EntryAtWindow(parent, i);
      var eaddr := GetEntryAddr(baddr, parent, shf);
      CachingKeepsFresh(mem, tlb, stale, PageNo(parent), Sees(PageNo(parent)).value);
      var r := LoadQ(eaddr);
      EntryDecides(s, k, i);
      AffordsOneIff(s, Child(k, i));
      if !Present(r) {
        r := AddTable(eaddr, k, i, fl);
      } else {
        PointScratch(r, k, i);
        HangsMore(s, Snap(), {}, {fl});
        TreeHolds(Snap(), Child(k, i));
      }
      t := KSPACE_LOC;
    }

    /** Make the table below a present entry r editable. */
    method PointScratch(r: nat, ghost k: Key, ghost i: nat)
      requires Valid() && Coherent()
      requires k in tables && 0 < k.level && i < 512 && Child(k, i) in tables
      requires r == Entry(mem, tables[k], i)
      modifies this`mem, this`tlb, this`stale
      ensures Valid() && Coherent() && stale == old(stale)
      ensures Extends(old(Snap()), Snap(), {Child(k, i)}) && Hangs(old(Snap()), Snap(), {})
      ensures Maps(mem, SCRATCH, tables[Child(k, i)])
      ensures SameWalks(old(mem), mem) && CachedFrom(old(tlb), tlb)
    {
      hide Sound, Extends, Hangs, Walk, PokeEntry, FrameOf, FreeCount, FreeFrame, Paged, PageAt, Entry,
        FreeList.Regions, FreeList.Valid, RegionsOf, SameWalks;
      ghost var s := Snap();
      EntryDecides(s, k, i);
      RetargetScratch(s, k, i);
      ghost var e := Walk(mem, KPT0_PAGE).value;
      CachingKeepsFresh(mem, tlb, stale, KPT0_PAGE, e);
      PageToKpt0(r);
      assert stale == old(stale);
      FreshAfterEdit(s.mem, mem, old(tlb)[KPT0_PAGE := e], stale, r);
      assert Snap() == Snapshot(PokeEntry(s.mem, KPT0_FRAME, 0, r), s.tables, s.regions);
    }

    /** Make val the leaf entry of the page at addr.  A translation of that page that was
        cached before stays in the TLB. */
    method SetPtEntry(addr: nat, val: nat, fl: nat)
      requires Valid() && Coherent()
      requires PageNo(addr) < VPAGES && !Reserved(PageNo(addr))
      requires val < WORD_LIMIT && GoodFlags(fl)
      requires Affords(Snap(), TablesFor(PageNo(addr)))
      modifies this`mem, this`tlb, this`tables, this`stale, pages, pages.repr
      ensures Valid() && pages.repr == old(pages.repr)
      ensures Coherent() && EntrySet(old(Snap()), Snap(), old(Cached()), Cached(), PageNo(addr), val, fl)
    {
      hide Sound, Extends, Hangs, Walk, PokeEntry, FrameOf, FreeCount, FreeFrame, Paged, PageAt, Entry,
        FreeList.Regions, FreeList.Valid, RegionsOf, GetEntryAddr, Affords, SameWalks;
      ghost var vp := PageNo(addr);
      var a := if addr >= KSPACE_LOC then addr - NON_CANON_SIZE else addr;
      var t := MakeTables(a, fl);
      ghost var s3, tlb3 := Snap(), tlb;
      t := GetEntryAddr(a, t, 12);
      SetLeaf(s3, vp, val);
      WriteLeaf(t, vp, val);
      LeafSet(old(mem), s3.mem, mem, old(tlb), tlb3, tlb, vp, val, stale);
      stale := stale + if vp in tlb then {vp} else {};
      GrowthTransitive(old(Snap()), s3, Snap(), TablesFor(vp), {}, {fl}, {});
      assert TablesFor(vp) + {} == TablesFor(vp) && {fl} + {} == {fl};
    }

    /** The final store, through the window onto the page table. */
    method WriteLeaf(t: nat, ghost vp: nat, val: nat)
      requires Valid() && Coherent()
      requires vp < VPAGES && !Reserved(vp) && KeyOf(vp, 0) in tables
      requires LeafAt(t, vp)
      requires val < WORD_LIMIT
      modifies this`mem, this`tlb
      ensures Valid()
      ensures mem == PokeEntry(old(mem), tables[KeyOf(vp, 0)], Slot(vp, 0), val)
      ensures CachedFrom(old(tlb), tlb)
      ensures forall p :: p in tlb && Reserved(p) ==> Walk(old(mem), p) == Some(tlb[p])
    {
      hide Sound, Extends, Hangs, Walk, PokeEntry, FrameOf, FreeCount, FreeFrame, Paged, PageAt, Entry,
        FreeList.Regions, FreeList.Valid, RegionsOf;
      ghost var s := Snap();
      ghost var w: nat :| t == w + 8 * Slot(vp, 0) && Window(w, tables[KeyOf(vp, 0)]);
      WindowSees(w, tables[KeyOf(vp, 0)]);
      EntryAtWindow(w, Slot(vp, 0));
      SetLeaf(s, vp, val);
      StoreQ(t, val);
      assert Snap() == Snapshot(PokeEntry(s.mem, s.tables[KeyOf(vp, 0)], Slot(vp, 0), val), s.tables, s.regions);
    }

    /** t is the address, in some window, of the leaf entry of page vp. */
    ghost predicate LeafAt(t: nat, vp: nat)
      reads this
    {
      KeyOf(vp, 0) in tables &&
      exists w: nat :: t == w + 8 * Slot(vp, 0) && Window(w, tables[KeyOf(vp, 0)])
    }

    /** The walk down to the page table of address a, growing the tables on the way. */
    method MakeTables(a: nat, fl: nat) returns (t: nat)
      requires Valid() && Coherent()
      requires a < VSPACE && GoodFlags(fl)
      requires Affords(Snap(), TablesFor(a / 0x1000))
      modifies this`mem, this`tlb, this`tables, this`stale, pages, pages.repr
      ensures stale == old(stale)
      ensures Valid() && Coherent() && pages.repr == old(pages.repr)
      ensures Extends(old(Snap()), Snap(), TablesFor(a / 0x1000)) && Hangs(old(Snap()), Snap(), {fl})
      ensures SameWalks(old(mem), mem) && CachedFrom(old(tlb), tlb)
      ensures LeafAt(GetEntryAddr(a, t, 12), a / 0x1000)
    {
      hide Sound, Extends, Hangs, Walk, FrameOf, FreeCount, FreeFrame, Paged, PageAt, Entry,
        FreeList.Regions, FreeList.Valid, RegionsOf, Affords, SameWalks, CachedFrom, Fresh,
        GoodFlags, PageNo, Slot, GrowsTo;
      ghost var vp := a / 0x1000;
      ghost var s0, tlb0, k2, k1, k0 := Snap(), tlb, KeyOf(vp, 2), KeyOf(vp, 1), KeyOf(vp, 0);
      RootKey(s0, vp);
      AffordsLess(s0, TablesFor(vp), {k2});
      t := CheckTable(a, PML4T_LOC, 39, fl, 3);
      ghost var s1, tlb1 := Snap(), tlb;
      AffordsNext(s0, s1, TablesFor(vp), {k2}, {k1});
      t := CheckTable(a, t, 30, fl, 2);
      ghost var s2, tlb2 := Snap(), tlb;
      GrowthTransitive(s0, s1, s2, {k2}, {k1}, {fl}, {fl});
      StepsCompose(s0.mem, s1.mem, s2.mem, tlb0, tlb1, tlb2);
      AffordsNext(s0, s2, TablesFor(vp), {k2} + {k1}, {k0});
      t := CheckTable(a, t, 21, fl, 1);
      assert {fl} + {fl} == {fl};
      GrowthTransitive(s0, s2, Snap(), {k2} + {k1}, {k0}, {fl}, {fl});
      StepsCompose(s0.mem, s2.mem, mem, tlb0, tlb2, tlb);
      assert {k2} + {k1} + {k0} == TablesFor(vp);
      EntryAddrIsSlot(a, t, 0);
    }
  }

  /** What set_pt_entry does: the missing tables on the way are grown and hung from entries with the
      flags fl, page vp is retranslated to val, no other page (but the scratch page) is, and vp is recorded
      as stale if it was cached. */
  ghost predicate EntrySet(s: Snapshot, t: Snapshot, c: Cache, d: Cache, vp: nat, val: nat, fl: nat) {
    && Extends(s, t, TablesFor(vp)) && Hangs(s, t, {fl})
    && (forall p :: 0 <= p < VPAGES && p != SCRATCH ==>
          Walk(t.mem, p) == if p == vp then Leaf(val) else Walk(s.mem, p))
    && CachedFrom(c.tlb, d.tlb)
    && d.stale == c.stale + if vp in d.tlb then {vp} else {}
  }

  /** In sound tables a table hangs from an upper entry on the way to a page exactly if it is present. */
  lemma PathHangs(s: Snapshot, vp: nat, level: nat)
    requires Sound(s) && vp < VPAGES && 1 <= level <= 3
    ensures var k, i, x := KeyOf(vp, level), Slot(vp, level), PathEntry(s.mem, vp, level);
            && Child(k, i) == KeyOf(vp, level - 1)
            && (Upper(s.tables, k, i) <==> x.Some? && Present(x.value))
            && (k in s.tables <==> x.Some?) && (x.Some? ==> x.value == Entry(s.mem, s.tables[k], i))
            && (Child(k, i) in s.tables ==> k in s.tables)
  {
    hide Walk, Entry, TableOf, Paged, FreeFrame, WindowsOpen, FrameOf, KeyOf, Slot, Child;
    TreeShape(s.mem, s.tables);
    KeyLadder(vp, level - 1);
    KeyLevel(vp, level);
    WalkFollowsTree(s.mem, s.tables, vp, level);
    if KeyOf(vp, level) in s.tables { EntryDecides(s, KeyOf(vp, level), Slot(vp, level)); }
  }

  lemma KeyLevel(vp: nat, level: nat)
    requires 1 <= level <= 3
    ensures KeyOf(vp, level).level == level && KeyOf(vp, level - 1).level < 3
  {
  }

  /** The three upper entries on the way to the page, as the processor reads them: one that was there stays,
      and one that was absent has the flags fl. */
  lemma PathFlags(s: Snapshot, t: Snapshot, c: Cache, d: Cache, vp: nat, val: nat, fl: nat, level: nat)
    requires Sound(s) && Sound(t) && EntrySet(s, t, c, d, vp, val, fl) && vp < VPAGES && 1 <= level <= 3
    ensures PathEntry(t.mem, vp, level).Some?
    ensures var x, was := PathEntry(t.mem, vp, level).value, PathEntry(s.mem, vp, level);
            if was.Some? && Present(was.value) then x == was.value else Present(x) && x % 0x1000 == fl
  {
    hide Walk, Entry, Extends, TableOf, Sound, Hangs, KeyOf, Slot, Child, PathEntry, Present;
    ExtendsKeepsTables(s, t, TablesFor(vp));
    PathHangs(s, vp, level);
    PathHangs(t, vp, level);
    KeyLevel(vp, level);
    PathNeeded(vp, level - 1);
    HangsThere(s, t, {fl}, KeyOf(vp, level), Slot(vp, level));
  }

  lemma PathNeeded(vp: nat, level: nat)
    requires level <= 2
    ensures KeyOf(vp, level) in TablesFor(vp)
  {
  }

  lemma HangsThere(s: Snapshot, t: Snapshot, F: set<nat>, k: Key, i: nat)
    requires Hangs(s, t, F) && Upper(t.tables, k, i)
    ensures HangsAt(s, t, F, k, i)
  {
  }

  // ----- what programs may access -----

  /** The table serves pages below the kernel's half. */
  predicate InUserHalf(c: Key) {
    c.level <= 2 && c.prefix * Unit(c.level + 1) < 0x8_0000_0000
  }

  /** All tables for pages below the kernel's half hang from entries with the three bits set. */
  ghost predicate UserOpen(s: Snapshot) {
    forall k, i: nat :: Upper(s.tables, k, i) && InUserHalf(Child(k, i)) ==> UserBits(Entry(s.mem, s.tables[k], i))
  }

  lemma BitsOfFlags(e: nat)
    ensures UserBits(e % 0x1000) <==> UserBits(e)
  {
    var q, r := e / 0x1000, e % 0x1000;
    assert e == 8 * (0x200 * q + r / 8) + r % 8;
    LowThree(e, 0x200 * q + r / 8, r % 8);
    LowThree(r, r / 8, r % 8);
  }

  lemma LowThree(e: nat, h: nat, b: nat)
    requires e == 8 * h + b && b < 8
    ensures UserBits(e) <==> b == 7
  {
    assert e / 2 == 4 * h + b / 2 && e / 4 == 2 * h + b / 4;
  }

  /** Edits that hang tables with the three bits keep it so. */
  lemma OpenStays(s: Snapshot, t: Snapshot, F: set<nat>)
    requires UserOpen(s) && Hangs(s, t, F) && forall f :: f in F ==> UserBits(f)
    ensures UserOpen(t)
  {
    hide Entry, UserBits, InUserHalf;
    forall k, i: nat | Upper(t.tables, k, i) && InUserHalf(Child(k, i))
      ensures UserBits(Entry(t.mem, t.tables[k], i))
    {
      assert HangsAt(s, t, F, k, i);
      if Child(k, i) in s.tables { assert Upper(s.tables, k, i); }
      BitsOfFlags(Entry(t.mem, t.tables[k], i));
    }
  }

  lemma UnderLimit(p: nat, level: nat)
    requires p < 0x8_0000_0000 && level <= 2
    ensures InUserHalf(KeyOf(p, level))
  {
    var u := Unit(level + 1);
    assert p / u * u <= p;
  }

  /** A page below the kernel's half whose leaf has the bits has them in all four entries. */
  lemma OpenMeansMay(s: Snapshot, p: nat)
    requires Sound(s) && UserOpen(s) && p < 0x8_0000_0000
    requires Walk(s.mem, p).Some? && UserBits(Walk(s.mem, p).value)
    ensures UserMay(s.mem, p)
  {
    hide Entry, TableOf, Sound, UserBits, Present, UserOpen, PathEntry, Walk;
    forall level | 0 <= level <= 3
      ensures PathEntry(s.mem, p, level).Some? && UserBits(PathEntry(s.mem, p, level).value)
    {
      LeafOnPath(s.mem, p);
      if level > 0 { UpperOpen(s, p, level); }
    }
  }

  lemma LeafOnPath(m: Mem, p: nat)
    requires Walk(m, p).Some?
    ensures PathEntry(m, p, 0) == Walk(m, p)
  {
    hide Entry, TableOf, Present;
  }

  lemma UpperOpen(s: Snapshot, p: nat, level: nat)
    requires Sound(s) && UserOpen(s) && p < 0x8_0000_0000 && Walk(s.mem, p).Some? && 1 <= level <= 3
    ensures PathEntry(s.mem, p, level).Some? && UserBits(PathEntry(s.mem, p, level).value)
  {
    hide Entry, Sound, UserBits, Present, PathEntry, Walk, InUserHalf, KeyOf, Slot, Child;
    PathThere(s, p);
    PathHangs(s, p, level);
    KeyLevel(p, level);
    UnderLimit(p, level - 1);
  }

  lemma PathThere(s: Snapshot, p: nat)
    requires Sound(s) && p < VPAGES && Walk(s.mem, p).Some?
    ensures forall level :: 0 <= level <= 2 ==> KeyOf(p, level) in s.tables
  {
    hide Entry, TableOf, Paged, FreeFrame, WindowsOpen, FrameOf, KeyOf, Walk;
    WalkIsLookup(s.mem, s.tables, p);
    TreeShape(s.mem, s.tables);
    PathKeys(s.tables, p);
  }

  /** Pages whose translation the table code itself depends on. */
  predicate Reserved(vp: nat) {
    vp == PML4_PAGE || vp == KPT0_PAGE || vp == SCRATCH
  }

  /** The tables that a translation for page vp passes below the PML4. */
  ghost function TablesFor(vp: nat): set<Key> {
    {KeyOf(vp, 2), KeyOf(vp, 1), KeyOf(vp, 0)}
  }

  lemma RootKey(s: Snapshot, vp: nat)
    requires Sound(s) && vp < VPAGES
    ensures KeyOf(vp, 3) in s.tables && s.tables[KeyOf(vp, 3)] == PML4_FRAME
  {
    hide Walk, Entry, Paged, FreeFrame;
    assert KeyOf(vp, 3) == ROOT;
  }

  lemma AffordsNext(s: Snapshot, t: Snapshot, all: set<Key>, need: set<Key>, more: set<Key>)
    requires Affords(s, all) && Extends(s, t, need) && need + more <= all
    ensures Affords(t, more)
  {
    AffordsLess(s, all, need + more);
    AffordsStepwise(s, t, need, more);
  }

  /** What the whole edit does, from the four steps it is made of. */
  lemma LeafSet(m: Mem, m3: Mem, m': Mem, tlb: map<nat, nat>, tlb3: map<nat, nat>, tlb': map<nat, nat>,
                vp: nat, val: nat, stale: set<nat>)
    requires vp < VPAGES && !Reserved(vp)
    requires SameWalks(m, m3) && Fresh(m3, tlb3 - stale) && CachedFrom(tlb, tlb3) && CachedFrom(tlb3, tlb')
    requires forall p :: 0 <= p < VPAGES ==> Walk(m', p) == if p == vp then Leaf(val) else Walk(m3, p)
    requires forall p :: p in tlb' && Reserved(p) ==> Walk(m3, p) == Some(tlb'[p])
    ensures forall p :: 0 <= p < VPAGES && p != SCRATCH ==>
              Walk(m', p) == if p == vp then Leaf(val) else Walk(m, p)
    ensures Fresh(m', tlb' - (stale + if vp in tlb' then {vp} else {})) && CachedFrom(tlb, tlb')
  {
    hide Walk, Leaf;
    forall p | p in tlb' - (stale + if vp in tlb' then {vp} else {})
      ensures p < VPAGES && Walk(m', p) == Some(tlb'[p])
    {
      assert p != vp && p !in stale;
      assert !Reserved(p) ==> p in tlb3 - stale;
    }
  }

  /** The final write: it changes the one translation and nothing else. */
  lemma SetLeaf(s: Snapshot, vp: nat, val: nat)
    requires Sound(s) && vp < VPAGES && !Reserved(vp) && KeyOf(vp, 0) in s.tables && val < WORD_LIMIT
    ensures var m := PokeEntry(s.mem, s.tables[KeyOf(vp, 0)], Slot(vp, 0), val);
            var s' := Snapshot(m, s.tables, s.regions);
            && Sound(s') && Extends(s, s', {}) && Hangs(s, s', {})
            && forall p :: 0 <= p < VPAGES ==> Walk(m, p) == if p == vp then Leaf(val) else Walk(s.mem, p)
  {
    hide Hangs, Walk, Tree, Shape, Entry, PokeEntry, FreeFrame, FreeCount, Paged, FrameOf;
    TreeShape(s.mem, s.tables);
    PokeEdits(s.mem, s.tables, KeyOf(vp, 0), vp % 512, val);
    LeafEdit(s.mem, PokeEntry(s.mem, s.tables[KeyOf(vp, 0)], vp % 512, val), s.tables, vp, val);
    LeafHangs(s, PokeEntry(s.mem, s.tables[KeyOf(vp, 0)], vp % 512, val), KeyOf(vp, 0), vp % 512, val);
    PokeEntryEffect(s.mem, s.tables[KeyOf(vp, 0)], vp % 512, val);
  }

  /** An entry address in a window stays in the window's page. */
  lemma EntryAtWindow(parent: nat, i: nat)
    requires parent == PML4T_LOC || parent == KSPACE_LOC
    requires i < 512
    ensures PageNo(parent + 8 * i) == PageNo(parent)
    ensures Aligned(parent + 8 * i) && WordNo(parent + 8 * i) == i
  {
  }

  /** An upper entry is absent exactly when the table below it is missing. */
  lemma EntryDecides(s: Snapshot, k: Key, i: nat)
    requires Sound(s) && k in s.tables && 0 < k.level && i < 512
    ensures Present(Entry(s.mem, s.tables[k], i)) <==> Child(k, i) in s.tables
    ensures Absent(s, k, i) <==> Child(k, i) !in s.tables
    ensures Maps(s.mem, KPT0_PAGE, KPT0_FRAME)
    ensures Entry(s.mem, s.tables[k], i) < WORD_LIMIT
  {
    hide Walk, Entry, Paged, FreeFrame;
    EntryBound(s.mem, s.tables[k], i);
    assert Present(Entry(s.mem, s.tables[k], i)) <==> Child(k, i) in s.tables;
  }

  /** Pointing the scratch page at an existing table retranslates that page only. */
  lemma RetargetScratch(s: Snapshot, k: Key, i: nat)
    requires Sound(s) && k in s.tables && 0 < k.level && i < 512 && Child(k, i) in s.tables
    ensures var r := Entry(s.mem, s.tables[k], i);
            var m := PokeEntry(s.mem, KPT0_FRAME, 0, r);
            var s' := Snapshot(m, s.tables, s.regions);
            && Sound(s') && Extends(s, s', {Child(k, i)}) && Hangs(s, s', {})
            && Maps(m, SCRATCH, s.tables[Child(k, i)]) && Walk(m, SCRATCH) == Some(r)
            && SameWalks(s.mem, m)
  {
    hide Hangs, Walk, Tree, Shape, Entry, PokeEntry, FreeFrame, FreeCount, Paged, FrameOf;
    var r := Entry(s.mem, s.tables[k], i);
    TreeShape(s.mem, s.tables);
    EntryDecides(s, k, i);
    PokeEdits(s.mem, s.tables, KeyOf(SCRATCH, 0), 0, r);
    LeafEdit(s.mem, PokeEntry(s.mem, KPT0_FRAME, 0, r), s.tables, SCRATCH, r);
    LeafHangs(s, PokeEntry(s.mem, KPT0_FRAME, 0, r), KeyOf(SCRATCH, 0), 0, r);
    PokeEntryEffect(s.mem, KPT0_FRAME, 0, r);
    EntryBelow(s.mem, s.tables, k, i);
  }

  lemma EntryBelow(m: Mem, T: Tables, k: Key, i: nat)
    requires Tree(m, T) && k in T && 0 < k.level && i < 512 && Child(k, i) in T
    ensures Present(Entry(m, T[k], i)) && FrameOf(Entry(m, T[k], i)) == T[Child(k, i)]
  {
  }

  ghost predicate Absent(s: Snapshot, k: Key, i: nat) {
    k in s.tables && 0 < k.level && i < 512 && !Present(Entry(s.mem, s.tables[k], i))
  }

  lemma ZeroNotFree(rs: seq<Region>)
    requires Paged(rs)
    ensures !FreeFrame(rs, 0)
  {
    hide AllDisjoint;
  }

  /** The frame behind alloc_pages's answer: a free one while there are any, and then frame 0. */
  lemma GivenFrame(s: Snapshot, fl: nat)
    requires Sound(s) && GoodFlags(fl)
    ensures var (a, rest) := Allocated(s.regions, 1);
            && FrameOf(a + fl) == a / 0x1000 < PHYS_FRAMES && Present(a + fl) && a + fl < WORD_LIMIT
            && Paged(rest) && FreeCount(rest) == (if FreeCount(s.regions) > 0 then FreeCount(s.regions) - 1 else 0)
            && (if FreeCount(s.regions) > 0 then FreeFrame(s.regions, a / 0x1000) else a == 0 && rest == s.regions)
            && (a / 0x1000 == 0 ==> FreeCount(s.regions) == 0) && !FreeFrame(s.regions, 0)
            && forall f :: FreeFrame(rest, f) <==> FreeFrame(s.regions, f) && f != a / 0x1000
  {
    hide Walk, Tree, Entry, Allocated, Maps, Paged, FreeCount, FreeFrame, FrameOf, Present;
    OnePageIsAvailable(s.regions);
    AllocHandsOutFrames(s.regions, 1);
    ZeroNotFree(s.regions);
    TaggedFrame(Allocated(s.regions, 1).0 / 0x1000, fl);
  }

  /** While the tree can grow it is in no other table. */
  lemma TableFrame(s: Snapshot, fl: nat)
    requires Sound(s) && CanGrow(s) && GoodFlags(fl)
    ensures FrameOf(Allocated(s.regions, 1).0 + fl) !in s.tables.Values
  {
    hide Walk, Tree, Entry, Allocated, Maps, Paged, FreeCount, FreeFrame, FrameOf, Present;
    GivenFrame(s, fl);
  }

  lemma TreeShape(m: Mem, T: Tables)
    requires Tree(m, T)
    ensures Shape(T)
  {
  }

  /** Memory once the new entry r is in its table and the scratch page points at the new frame. */
  function Hung(s: Snapshot, k: Key, i: nat, r: nat): Mem
    requires k in s.tables && i < 512
  {
    PokeEntry(PokeEntry(s.mem, s.tables[k], i, r), KPT0_FRAME, 0, r)
  }

  /** Until the new table is cleared the tree is broken below it, but the two pages that the
      clearing goes through still translate. */
  lemma BeforeClearing(s: Snapshot, k: Key, i: nat, r: nat)
    requires Sound(s) && Absent(s, k, i) && r < WORD_LIMIT && Present(r)
    ensures Maps(s.mem, KPT0_PAGE, KPT0_FRAME)
    ensures Walk(PokeEntry(s.mem, s.tables[k], i, r), KPT0_PAGE) == Walk(s.mem, KPT0_PAGE)
    ensures Walk(Hung(s, k, i, r), SCRATCH) == Some(r)
  {
    hide PokeEntry, Entry, TableOf, Tree, Shape, Paged, FreeFrame, FrameOf;
    var m1 := PokeEntry(s.mem, s.tables[k], i, r);
    TreeShape(s.mem, s.tables);
    WindowsThere(s);
    PokeEdits(s.mem, s.tables, k, i, r);
    PokeEdits(m1, s.tables, KeyOf(SCRATCH, 0), 0, r);
    WalkIsLookup(s.mem, s.tables, KPT0_PAGE);
    AbsentEntryOnNoPath(s.mem, m1, s.tables, k, i, KPT0_PAGE);
    AbsentEntryOnNoPath(s.mem, Hung(s, k, i, r), s.tables, k, i, SCRATCH);
  }

  /** Then the frame is cleared. */
  ghost predicate Cleared(s: Snapshot, k: Key, i: nat, r: nat, m: Mem)
    requires k in s.tables && i < 512
  {
    && PageAt(m, FrameOf(r)) == ZERO_PAGE
    && forall f: nat :: f != FrameOf(r) ==> PageAt(m, f) == PageAt(Hung(s, k, i, r), f)
  }

  lemma ClearedIsGrown(s: Snapshot, k: Key, i: nat, r: nat, m: Mem)
    requires Sound(s) && Absent(s, k, i) && r < WORD_LIMIT && Present(r) && FrameOf(r) !in s.tables.Values
    requires Cleared(s, k, i, r, m)
    ensures Grown(s.mem, m, s.tables, k, i, r)
  {
    var m1 := PokeEntry(s.mem, s.tables[k], i, r);
    PokeEdits(s.mem, s.tables, k, i, r);
    PokeEdits(m1, s.tables, KeyOf(SCRATCH, 0), 0, r);
    ZeroFrameHasNoEntries(m, FrameOf(r));
    forall j, l {:trigger Entry(m, s.tables[j], l)} | j in s.tables && 0 <= l < 512
      ensures Entry(m, s.tables[j], l) == Entry(Hung(s, k, i, r), s.tables[j], l)
    {
      assert s.tables[j] != FrameOf(r);
    }
  }

  lemma AfterClearing(s: Snapshot, k: Key, i: nat, fl: nat, m: Mem)
    requires Sound(s) && Absent(s, k, i) && CanGrow(s) && GoodFlags(fl)
    requires Cleared(s, k, i, Allocated(s.regions, 1).0 + fl, m)
    ensures var (a, rest) := Allocated(s.regions, 1);
            var s' := Snapshot(m, s.tables[Child(k, i) := FrameOf(a + fl)], rest);
            && Sound(s') && Extends(s, s', {Child(k, i)}) && Hangs(s, s', {fl})
            && Walk(m, SCRATCH) == Some(a + fl)
            && SameWalks(s.mem, m)
  {
    hide Hangs, Walk, Tree, Allocated, Entry, PageAt, Hung, FreeFrame, FreeCount, Paged, FrameOf, Grown;
    var (a, rest) := Allocated(s.regions, 1);
    var r := a + fl;
    var T' := s.tables[Child(k, i) := FrameOf(r)];
    GivenFrame(s, fl);
    TableFrame(s, fl);
    ClearedIsGrown(s, k, i, r, m);
    GrowTree(s.mem, m, s.tables, k, i, r);
    GrowKeepsWalks(s.mem, m, s.tables, k, i, r);
    GrownHangs(s, m, k, i, r, rest);
    FlagsOfEntry(s, fl);
    HungTouchesTables(s, k, i, r);
    assert T'.Keys == s.tables.Keys + {Child(k, i)};
    assert |T'| == |s.tables| + 1;
    assert T'[Child(k, i)] == FrameOf(r);
    forall f: nat | f !in T'.Values
      ensures f != FrameOf(r) && f !in s.tables.Values
    {
      assert forall j :: j in s.tables ==> T'[j] == s.tables[j];
    }
  }

  // ----- when a growth works out -----

  /** Memory holds some tree of tables, with k among them. */
  ghost predicate GrowsTo(m: Mem, k: Key) {
    exists T :: Tree(m, T) && k in T
  }

  lemma TreeHolds(s: Snapshot, k: Key)
    requires Sound(s) && k in s.tables
    ensures GrowsTo(s.mem, k)
  {
    hide Tree;
  }

  /** Table j lies above table x. */
  predicate Above(j: Key, x: Key)
    decreases 3 - x.level
  {
    x.level < 3 && (Parent(x) == j || Above(j, Parent(x)))
  }

  /** After a growth that used frame 0 while table j was in it, every tree still has the tables that
      do not hang below j, where they were. */
  lemma {:induction false} TableStays(s: Snapshot, k: Key, i: nat, r: nat, m: Mem, T: Tables, j: Key, x: Key)
    requires Sound(s) && Absent(s, k, i) && r < WORD_LIMIT && FrameOf(r) == 0 && Cleared(s, k, i, r, m)
    requires j in s.tables && s.tables[j] == 0 && Tree(m, T)
    requires x in s.tables && !Above(j, x)
    ensures x in T && T[x] == s.tables[x]
    decreases 3 - x.level
  {
    hide Entry, PageAt, Hung, FrameOf, Present, Paged, FreeFrame, Maps;
    TreeShape(s.mem, s.tables);
    if x.level < 3 {
      var up, l := Parent(x), x.prefix % 512;
      TableStays(s, k, i, r, m, T, j, up);
      assert Child(up, l) == x;
      UpperEntryStays(s, k, i, r, m, up, l);
      EntryBelow(s.mem, s.tables, up, l);
      assert Present(Entry(m, T[up], l)) <==> Child(up, l) in T;
    }
  }

  /** The entries of tables outside the cleared frame, but for the new one and the scratch page's. */
  lemma UpperEntryStays(s: Snapshot, k: Key, i: nat, r: nat, m: Mem, x: Key, l: nat)
    requires Sound(s) && Absent(s, k, i) && r < WORD_LIMIT && Cleared(s, k, i, r, m)
    requires x in s.tables && 0 < x.level && l < 512 && s.tables[x] != FrameOf(r)
    ensures Entry(m, s.tables[x], l) == if x == k && l == i then r else Entry(s.mem, s.tables[x], l)
  {
    hide PokeEntry, Entry, PageAt, FrameOf, Present, Paged, FreeFrame, Maps, Walk;
    TreeShape(s.mem, s.tables);
    var m1 := PokeEntry(s.mem, s.tables[k], i, r);
    PokeEdits(s.mem, s.tables, k, i, r);
    PokeEdits(m1, s.tables, KeyOf(SCRATCH, 0), 0, r);
    SamePageSameEntry(m, Hung(s, k, i, r), s.tables[x], l);
  }

  lemma SamePageSameEntry(m: Mem, m': Mem, f: nat, l: nat)
    requires PageAt(m, f) == PageAt(m', f) && l < 512
    ensures Entry(m, f, l) == Entry(m', f, l)
  {
  }

  lemma {:induction false} NothingBelow(T: Tables, j: Key, x: Key)
    requires Shape(T) && x in T && (forall l :: 0 <= l < 512 && 0 < j.level ==> Child(j, l) !in T)
    ensures !Above(j, x)
    decreases 3 - x.level
  {
    if x.level < 3 {
      NothingBelow(T, j, Parent(x));
      assert Parent(x) == j ==> Child(j, x.prefix % 512) == x;
    }
  }

  /** With no free frame and a table in frame 0, a growth empties that table and leaves no tree with the
      new table in it. */
  lemma GrowthFails(s: Snapshot, k: Key, i: nat, r: nat, m: Mem, T: Tables)
    requires Sound(s) && Absent(s, k, i) && r < WORD_LIMIT && Present(r) && FrameOf(r) == 0
    requires IsTable(s.tables, 0) && Cleared(s, k, i, r, m) && Tree(m, T)
    ensures Child(k, i) !in T
  {
    hide Entry, PageAt, Hung, FrameOf, Paged, FreeFrame, Maps;
    var j :| j in s.tables && s.tables[j] == 0;
    TreeShape(s.mem, s.tables);
    EntryDecides(s, k, i);
    NotAboveItself(j);
    TableStays(s, k, i, r, m, T, j, j);
    ZeroFrameHasNoEntries(m, 0);
    forall l | 0 <= l < 512 && 0 < j.level
      ensures Child(j, l) !in T
    {
      assert Present(Entry(m, T[j], l)) <==> Child(j, l) in T;
    }
    if Child(k, i) in T {
      NothingBelow(T, j, Child(k, i));
      ParentOfChild(k, i);
      TableStays(s, k, i, r, m, T, j, k);
      UpperEntryStays(s, k, i, r, m, k, i);
      assert false;
    }
  }

  lemma ParentOfChild(k: Key, i: nat)
    requires 0 < k.level <= 3 && i < 512
    ensures Parent(Child(k, i)) == k && Child(k, i).level < 3
  {
  }

  lemma {:induction false} AboveIsHigher(j: Key, x: Key)
    requires Above(j, x)
    ensures j.level > x.level
    decreases 3 - x.level
  {
    if Parent(x) != j { AboveIsHigher(j, Parent(x)); }
  }

  lemma NotAboveItself(j: Key)
    ensures !Above(j, j)
  {
    if Above(j, j) { AboveIsHigher(j, j); }
  }

  /** A growth leaves a tree with the new table in it if and only if a frame was free or frame 0 held no
      table. */
  lemma GrowthIff(s: Snapshot, k: Key, i: nat, fl: nat, m: Mem)
    requires Sound(s) && Absent(s, k, i) && GoodFlags(fl)
    requires Cleared(s, k, i, Allocated(s.regions, 1).0 + fl, m)
    ensures GrowsTo(m, Child(k, i)) <==> CanGrow(s)
  {
    hide Sound, Allocated, Cleared, Present, FrameOf, FreeCount, Entry, Tree, Walk, Extends, SameWalks, FreeFrame,
      Paged;
    var r := Allocated(s.regions, 1).0 + fl;
    GivenFrame(s, fl);
    if CanGrow(s) {
      AfterClearing(s, k, i, fl, m);
      TreeHolds(s.(mem := m, tables := s.tables[Child(k, i) := FrameOf(r)], regions := Allocated(s.regions, 1).1),
                Child(k, i));
    } else {
      forall T | Tree(m, T)
        ensures Child(k, i) !in T
      {
        GrowthFails(s, k, i, r, m, T);
      }
    }
  }

  /** Such growths occur: with no free frame, the first of any two puts its table into frame 0 and the
      second leaves no tree with its own. */
  lemma SecondGrowthFails(s: Snapshot, k: Key, i: nat, k2: Key, i2: nat, fl: nat, m: Mem, m2: Mem)
    requires Sound(s) && Absent(s, k, i) && GoodFlags(fl) && FreeCount(s.regions) == 0 && !IsTable(s.tables, 0)
    requires Cleared(s, k, i, fl, m)
    requires var s1 := Snapshot(m, s.tables[Child(k, i) := 0], s.regions);
             Absent(s1, k2, i2) && Cleared(s1, k2, i2, fl, m2)
    ensures Sound(Snapshot(m, s.tables[Child(k, i) := 0], s.regions)) && !GrowsTo(m2, Child(k2, i2))
  {
    hide Sound, Allocated, Cleared, Present, FrameOf, FreeCount, Absent, Tree, Walk, Extends, SameWalks, FreeFrame,
      Paged, Entry, GrowsTo;
    GivenFrame(s, fl);
    AfterClearing(s, k, i, fl, m);
    var s1 := Snapshot(m, s.tables[Child(k, i) := 0], s.regions);
    assert FrameOf(fl) == 0 && s1.tables[Child(k, i)] == 0;
    GrowthIff(s1, k2, i2, fl, m2);
  }

  lemma FlagsOfEntry(s: Snapshot, fl: nat)
    requires Sound(s) && GoodFlags(fl)
    ensures (Allocated(s.regions, 1).0 + fl) % 0x1000 == fl
  {
    hide Walk, Tree, Maps, Allocated, FreeFrame, FreeCount, Paged, WindowsOpen;
    AllocHandsOutFrames(s.regions, 1);
    LowBits(Allocated(s.regions, 1).0, fl);
  }

  lemma LowBits(a: nat, fl: nat)
    requires a % 0x1000 == 0 && fl < 0x1000
    ensures (a + fl) % 0x1000 == fl
  {
  }

  lemma HungTouchesTables(s: Snapshot, k: Key, i: nat, r: nat)
    requires Sound(s) && Absent(s, k, i) && r < WORD_LIMIT
    ensures forall f: nat :: f !in s.tables.Values ==> PageAt(Hung(s, k, i, r), f) == PageAt(s.mem, f)
  {
    assert s.tables[KeyOf(SCRATCH, 0)] == KPT0_FRAME;
  }

  // ----- stores that are not to tables -----

  /** A store to a frame that holds no table changes no translation. */
  lemma DataStore(s: Snapshot, f: nat, m: Mem)
    requires Sound(s) && !IsTable(s.tables, f)
    requires forall g: nat :: g != f ==> PageAt(m, g) == PageAt(s.mem, g)
    ensures Sound(s.(mem := m))
    ensures forall p :: 0 <= p < VPAGES ==> Walk(m, p) == Walk(s.mem, p)
  {
    hide TableOf, PageAt, Paged, FreeFrame;
    forall k, i {:trigger Entry(m, s.tables[k], i)} | k in s.tables && 0 <= i < 512
      ensures Entry(m, s.tables[k], i) == Entry(s.mem, s.tables[k], i)
    {
      assert s.tables[k] != f;
    }
    forall p | 0 <= p < VPAGES
      ensures Walk(m, p) == Walk(s.mem, p)
    {
      WalkIsLookup(s.mem, s.tables, p);
      WalkIsLookup(m, s.tables, p);
    }
  }

  /** Pointing the scratch page anywhere retranslates that page only. */
  lemma PointAnywhere(s: Snapshot, r: nat)
    requires Sound(s) && r < WORD_LIMIT && Present(r)
    ensures var m := PokeEntry(s.mem, KPT0_FRAME, 0, r);
            && Sound(s.(mem := m)) && Walk(m, SCRATCH) == Some(r) && SameWalks(s.mem, m)
            && IsTable(s.tables, KPT0_FRAME)
            && forall g: nat :: g != KPT0_FRAME ==> PageAt(m, g) == PageAt(s.mem, g)
  {
    hide TableOf, Tree, Shape, Entry, PokeEntry, FreeFrame, Paged, FrameOf;
    TreeShape(s.mem, s.tables);
    PokeEdits(s.mem, s.tables, KeyOf(SCRATCH, 0), 0, r);
    LeafEdit(s.mem, PokeEntry(s.mem, KPT0_FRAME, 0, r), s.tables, SCRATCH, r);
    PokeEntryEffect(s.mem, KPT0_FRAME, 0, r);
  }

  /** Stores to frames that hold no upper table leave the entries that tables hang from. */
  lemma StoresHang(s: Snapshot, m: Mem)
    requires Sound(s)
    requires forall f: nat :: IsTable(s.tables, f) && f != KPT0_FRAME ==> PageAt(m, f) == PageAt(s.mem, f)
    ensures Hangs(s, s.(mem := m), {})
  {
    hide Walk, Entry, PageAt, Paged, FreeFrame, WindowsOpen, FrameOf, Present;
    forall k, i: nat | Upper(s.tables, k, i)
      ensures HangsAt(s, s.(mem := m), {}, k, i)
    {
      assert k != KeyOf(SCRATCH, 0) && s.tables[k] != KPT0_FRAME;
      assert IsTable(s.tables, s.tables[k]);
      SamePageSameEntry(m, s.mem, s.tables[k], i);
    }
  }

  lemma FreshSameWalks(m: Mem, m': Mem, tlb: map<nat, nat>)
    requires Fresh(m, tlb) && forall p :: 0 <= p < VPAGES ==> Walk(m', p) == Walk(m, p)
    ensures Fresh(m', tlb)
  {
    hide TableOf, Entry;
  }
}
