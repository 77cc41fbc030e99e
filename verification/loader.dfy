/** Copying a program image into its frames through the scratch window. */
module Loader {
  import opened Bytes
  import opened Options
  import opened PageTables
  import opened PageManager
  import opened FrameSupply
  import opened PagingUnit

  /** Byte i of the image: the file's bytes, then zeros. */
  function ImageByte(cd: seq<Byte>, ssz: nat, i: nat): Byte
    requires ssz <= |cd|
  {
    if i < ssz then cd[i] else 0
  }

  function PageOf(i: nat): nat {
    i / 0x1000
  }

  /** The frame behind byte i of an image that starts at frame base. */
  function FrameAt(base: nat, i: nat): nat {
    base + PageOf(i)
  }

  /** The first n bytes of the image are in place, and apart from the image's own frames (count of
      them) and the scratch page's table no frame has changed. */
  ghost predicate Loaded(s: Snapshot, t: Snapshot, base: nat, count: nat, cd: seq<Byte>, ssz: nat, n: nat) {
    && t == s.(mem := t.mem) && SameWalks(s.mem, t.mem) && ssz <= |cd|
    && (forall i: nat :: i < n ==> PageAt(t.mem, FrameAt(base, i))[InPage(i)] == ImageByte(cd, ssz, i))
    && (forall f: nat :: f != KPT0_FRAME && !(base <= f < base + count) ==> PageAt(t.mem, f) == PageAt(s.mem, f))
  }

  /** The image's frames exist and hold no tables. */
  ghost predicate FramesFor(s: Snapshot, base: nat, count: nat) {
    base + count <= PHYS_FRAMES && forall f: nat :: base <= f < base + count ==> !IsTable(s.tables, f)
  }

  lemma ByteOfPage(i: nat, count: nat)
    requires i < count * 0x1000
    ensures PageOf(i) < count
    ensures InPage(i) == 0 ==> i == PageOf(i) * 0x1000
    ensures InPage(i) != 0 ==> i > 0 && PageOf(i) == PageOf(i - 1)
  {
  }

  lemma SamePlace(i: nat, j: nat)
    requires PageOf(i) == PageOf(j) && InPage(i) == InPage(j)
    ensures i == j
  {
  }

  lemma StoredByte(s: Snapshot, t: Snapshot, base: nat, count: nat, cd: seq<Byte>, ssz: nat, i: nat, b: Byte)
    requires Loaded(s, t, base, count, cd, ssz, i) && b == ImageByte(cd, ssz, i) && i < count * 0x1000
    requires Sound(t) && FramesFor(s, base, count)
    ensures var m := PokeByte(t.mem, FrameAt(base, i), InPage(i), b);
            && Sound(t.(mem := m)) && Loaded(s, t.(mem := m), base, count, cd, ssz, i + 1)
            && Walk(m, SCRATCH) == Walk(t.mem, SCRATCH)
            && (forall p :: 0 <= p < VPAGES ==> Walk(m, p) == Walk(t.mem, p))
  {
    hide Walk, Sound, IsTable, PageOf, InPage;
    var m := PokeByte(t.mem, FrameAt(base, i), InPage(i), b);
    ByteOfPage(i, count);
    DataStore(t, FrameAt(base, i), m);
    forall j: nat | j < i + 1
      ensures PageAt(m, FrameAt(base, j))[InPage(j)] == ImageByte(cd, ssz, j)
    {
      if j < i && PageOf(i) == PageOf(j) && InPage(i) == InPage(j) { SamePlace(i, j); }
    }
  }

  lemma PointedAt(s: Snapshot, t: Snapshot, base: nat, count: nat, cd: seq<Byte>, ssz: nat, i: nat)
    requires Loaded(s, t, base, count, cd, ssz, i) && Sound(t) && Sound(s) && FramesFor(s, base, count)
    requires i < count * 0x1000
    ensures var r := FrameAt(base, i) * 0x1000 + 3;
            var m := PokeEntry(t.mem, KPT0_FRAME, 0, r);
            && Sound(t.(mem := m)) && Loaded(s, t.(mem := m), base, count, cd, ssz, i)
            && Walk(m, SCRATCH) == Some(r) && FrameOf(r) == FrameAt(base, i) && r < WORD_LIMIT
            && SameWalks(t.mem, m) && FrameAt(base, i) < PHYS_FRAMES
  {
    hide Walk, Sound, PageOf, InPage, PokeEntry, IsTable, FrameOf;
    ByteOfPage(i, count);
    TaggedFrame(FrameAt(base, i), 3);
    PointAnywhere(t, FrameAt(base, i) * 0x1000 + 3);
    forall j: nat | j < i
      ensures !IsTable(s.tables, FrameAt(base, j))
    {
      ByteOfPage(j, count);
    }
  }

  /** Copy loop of spawn_process: ssz bytes of the image, then absz zeros, through the scratch
      page, which is pointed at the next frame at every page boundary. */
  method CopyImage(m: Mmu, cd: seq<Byte>, ssz: nat, absz: nat, pbase: nat, ghost base: nat, ghost count: nat)
    requires m.Valid() && m.Coherent() && ssz <= |cd| && ssz + absz <= count * 0x1000 && pbase == base * 0x1000
    requires FramesFor(m.Snap(), base, count)
    modifies m`mem, m`tlb, m`stale
    ensures m.Valid() && m.Coherent() && m.stale == old(m.stale) && CachedFrom(old(m.tlb), m.tlb)
    ensures Loaded(old(m.Snap()), m.Snap(), base, count, cd, ssz, ssz + absz)
  {
    hide Walk, Sound, Loaded, FramesFor, PageOf, InPage, FrameAt, ImageByte, PageNo, Mmu.Snap, Mmu.Valid, Mmu.Coherent,
      PokeEntry, PokeByte, FrameOf, CachedFrom;
    ghost var s, tlb0 := m.Snap(), m.tlb;
    CachedSame(tlb0);
    SnapIsSound(m);
    NothingLoaded(s, base, count, cd, ssz);
    var i := 0;
    while i < ssz + absz
      invariant i <= ssz + absz
      invariant m.Valid() && m.Coherent() && m.stale == old(m.stale) && CachedFrom(tlb0, m.tlb)
      invariant Loaded(s, m.Snap(), base, count, cd, ssz, i)
      invariant i > 0 ==> Maps(m.mem, SCRATCH, FrameAt(base, i - 1))
    {
      FrameOfNext(base, i);
      ghost var tlb1 := m.tlb;
      CachedSame(tlb1);
      if InPage(i) == 0 {
        SnapIsSound(m);
        MemOfSnap(m);
        PointedAt(s, m.Snap(), base, count, cd, ssz, i);
        PointScratch(m, pbase + i, FrameAt(base, i));
      }
      var b := if i < ssz then cd[i] else 0;
      assert b == ImageByte(cd, ssz, i) by { ByteOfImage(cd, ssz, i); }
      ghost var tlb2 := m.tlb;
      StoreImageByte(m, b, i, s, base, count, cd, ssz);
      CachedOnwards(tlb1, tlb2, m.tlb);
      CachedOnwards(tlb0, tlb1, m.tlb);
      i := i + 1;
    }
  }

  /** Point the scratch page at frame f. */
  method PointScratch(m: Mmu, pa: nat, ghost f: nat)
    requires m.Valid() && m.Coherent() && f < PHYS_FRAMES && pa == f * 0x1000
    modifies m`mem, m`tlb, m`stale
    ensures m.Valid() && m.Coherent() && m.stale == old(m.stale) && CachedFrom(old(m.tlb), m.tlb)
    ensures m.Snap() == old(m.Snap()).(mem := PokeEntry(old(m.mem), KPT0_FRAME, 0, pa + 3))
    ensures Maps(m.mem, SCRATCH, f) && SameWalks(old(m.mem), m.mem)
  {
    hide Walk, Sound, FrameOf, PokeEntry, FreeList.Regions, FreeList.Valid, Fresh, SameWalks;
    ghost var t, r, tlb0 := m.Snap(), pa + 3, m.tlb;
    TaggedFrame(f, 3);
    PointAnywhere(t, r);
    WindowsThere(t);
    ghost var e := Walk(m.mem, KPT0_PAGE).value;
    if KPT0_PAGE in m.tlb { FreshAgrees(m.mem, m.tlb, m.stale, KPT0_PAGE); }
    CachingKeepsFresh(m.mem, m.tlb, m.stale, KPT0_PAGE, e);
    m.PageToKpt0(pa + 3);
    assert m.stale == old(m.stale);
    assert m.Snap() == t.(mem := PokeEntry(t.mem, KPT0_FRAME, 0, r));
    FreshAfterEdit(t.mem, m.mem, tlb0[KPT0_PAGE := e], m.stale, r);
  }

  /** A word into the frame behind the scratch page. */
  method StoreScratchWord(m: Mmu, i: nat, v: nat, ghost f: nat)
    requires m.Valid() && m.Coherent() && i < 512 && v < WORD_LIMIT
    requires Maps(m.mem, SCRATCH, f) && !IsTable(m.tables, f)
    modifies m`mem, m`tlb
    ensures m.Valid() && m.Coherent() && CachedFrom(old(m.tlb), m.tlb)
    ensures m.Snap() == old(m.Snap()).(mem := PokeEntry(old(m.mem), f, i, v))
    ensures Maps(m.mem, SCRATCH, f) && SameWalks(old(m.mem), m.mem)
  {
    hide Walk, Sound, FrameOf, PokeEntry, FreeList.Regions, FreeList.Valid, Fresh, PageNo, Aligned, WordNo, IsTable;
    ghost var t, e, tlb0 := m.Snap(), Walk(m.mem, SCRATCH).value, m.tlb;
    if SCRATCH in m.tlb { FreshAgrees(m.mem, m.tlb, m.stale, SCRATCH); }
    CachingKeepsFresh(m.mem, m.tlb, m.stale, SCRATCH, e);
    EntryAtWindow(KSPACE_LOC, i);
    WindowPage();
    WordStore(t, f, i, v);
    m.StoreQ(KSPACE_LOC + 8 * i, v);
    assert m.Snap() == t.(mem := PokeEntry(t.mem, f, i, v));
    FreshSameWalks(t.mem, m.mem, tlb0[SCRATCH := e] - m.stale);
  }

  lemma CachedSame(tlb: map<nat, nat>)
    ensures CachedFrom(tlb, tlb)
  {
  }

  lemma CachedOnwards(tlb: map<nat, nat>, tlb1: map<nat, nat>, tlb2: map<nat, nat>)
    requires CachedFrom(tlb, tlb1) && CachedFrom(tlb1, tlb2)
    ensures CachedFrom(tlb, tlb2)
  {
  }

  lemma WindowPage()
    ensures PageNo(KSPACE_LOC) == SCRATCH
  {
  }

  lemma WordStore(s: Snapshot, f: nat, i: nat, v: nat)
    requires Sound(s) && !IsTable(s.tables, f) && i < 512 && v < WORD_LIMIT
    ensures var m := PokeEntry(s.mem, f, i, v);
            Sound(s.(mem := m)) && forall p :: 0 <= p < VPAGES ==> Walk(m, p) == Walk(s.mem, p)
  {
    hide Walk, Sound, IsTable;
    PokeEntryEffect(s.mem, f, i, v);
    DataStore(s, f, PokeEntry(s.mem, f, i, v));
  }

  method StoreImageByte(m: Mmu, b: Byte, i: nat, ghost s: Snapshot, ghost base: nat, ghost count: nat,
                        ghost cd: seq<Byte>, ghost ssz: nat)
    requires m.Valid() && m.Coherent() && Loaded(s, m.Snap(), base, count, cd, ssz, i)
    requires ssz <= |cd| && b == ImageByte(cd, ssz, i) && i < count * 0x1000 && FramesFor(s, base, count)
    requires Maps(m.mem, SCRATCH, FrameAt(base, i))
    modifies m`mem, m`tlb
    ensures m.Valid() && m.Coherent() && CachedFrom(old(m.tlb), m.tlb)
    ensures Loaded(s, m.Snap(), base, count, cd, ssz, i + 1)
    ensures Maps(m.mem, SCRATCH, FrameAt(base, i))
  {
    hide Walk, Sound, Loaded, FramesFor, PageOf, InPage, FrameAt, FrameOf, PokeByte, FreeList.Regions, FreeList.Valid,
      Fresh, ImageByte, PageNo;
    ghost var t, e, tlb0 := m.Snap(), Walk(m.mem, SCRATCH).value, m.tlb;
    if SCRATCH in m.tlb { FreshAgrees(m.mem, m.tlb, m.stale, SCRATCH); }
    CachingKeepsFresh(m.mem, m.tlb, m.stale, SCRATCH, e);
    ScratchByte(InPage(i));
    StoredByte(s, t, base, count, cd, ssz, i, b);
    m.StoreB(KSPACE_LOC + InPage(i), b);
    assert m.Snap() == t.(mem := PokeByte(t.mem, FrameAt(base, i), InPage(i), b));
    FreshSameWalks(t.mem, m.mem, tlb0[SCRATCH := e] - m.stale);
  }

  lemma FrameOfNext(base: nat, i: nat)
    ensures InPage(i) != 0 ==> i > 0 && FrameAt(base, i) == FrameAt(base, i - 1)
    ensures InPage(i) == 0 ==> base * 0x1000 + i == FrameAt(base, i) * 0x1000
  {
  }

  lemma ByteOfImage(cd: seq<Byte>, ssz: nat, i: nat)
    requires ssz <= |cd|
    ensures ImageByte(cd, ssz, i) == if i < ssz then cd[i] else 0
  {
  }

  lemma NothingLoaded(s: Snapshot, base: nat, count: nat, cd: seq<Byte>, ssz: nat)
    requires ssz <= |cd|
    ensures Loaded(s, s, base, count, cd, ssz, 0)
  {
    hide Walk;
  }

  lemma MemOfSnap(m: Mmu)
    ensures m.Snap().mem == m.mem && m.Snap().tables == m.tables
  {
  }

  lemma SnapIsSound(m: Mmu)
    requires m.Valid()
    ensures Sound(m.Snap())
  {
  }
}
