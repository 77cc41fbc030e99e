/** Mapping and unmapping runs of pages. */
module Paging {
  import opened Bytes
  import opened Options
  import opened PageTables
  import opened PageManager
  import opened FrameSupply
  import opened PagingUnit
  import opened Workspaces

  /** n pages from vaddr on stay in one half of the address space and off the reserved pages. */
  ghost predicate Clear(vaddr: nat, n: nat) {
    && (vaddr / 0x1000 * 0x1000 + n * 0x1000 <= USPACE_TOP
        || (KSPACE_LOC <= vaddr && vaddr / 0x1000 * 0x1000 + n * 0x1000 <= WORD_LIMIT))
    && (forall p :: PageNo(vaddr) <= p < PageNo(vaddr) + n ==> !Reserved(p))
  }

  ghost function TablesForRange(vp: nat, n: nat): set<Key> {
    if n == 0 then {} else TablesForRange(vp, n - 1) + TablesFor(vp + n - 1)
  }

  lemma {:induction false} RangeGrows(vp: nat, k: nat, n: nat)
    requires k <= n
    ensures TablesForRange(vp, k) <= TablesForRange(vp, n)
    decreases n
  {
    if k < n { RangeGrows(vp, k, n - 1); }
  }

  lemma RangeStep(vp: nat, k: nat, n: nat)
    requires k < n
    ensures TablesForRange(vp, k + 1) == TablesForRange(vp, k) + TablesFor(vp + k)
    ensures TablesForRange(vp, k) + TablesFor(vp + k) <= TablesForRange(vp, n)
  {
    RangeGrows(vp, k + 1, n);
  }

  /** From m to m', pages vp .. vp+n-1 were given the entries from e on, one frame apart, and
      the other pages (but the scratch page) translate as before. */
  ghost predicate MapsRun(m: Mem, m': Mem, vp: nat, n: nat, e: nat) {
    forall p :: 0 <= p < VPAGES && p != SCRATCH ==>
      Walk(m', p) == if vp <= p < vp + n then Some(e + (p - vp) * 0x1000) else Walk(m, p)
  }

  lemma RunStep(m: Mem, m1: Mem, m2: Mem, vp: nat, n: nat, e: nat)
    requires MapsRun(m, m1, vp, n, e) && Present(e + n * 0x1000)
    requires forall p :: 0 <= p < VPAGES && p != SCRATCH ==>
               Walk(m2, p) == if p == vp + n then Leaf(e + n * 0x1000) else Walk(m1, p)
    ensures MapsRun(m, m2, vp, n + 1, e)
  {
    hide Walk;
  }

  /** The cached pages of a run: mapping the run leaves what they have in the TLB. */
  ghost function CachedRun(tlb: map<nat, nat>, vp: nat, n: nat): set<nat> {
    set p | p in tlb && vp <= p < vp + n
  }

  /** The entry of the first page of a run of frames. */
  function FirstEntry(paddr: nat, fl: nat): nat {
    paddr / 0x1000 * 0x1000 + fl
  }

  predicate PageStep(va: nat, vp: nat, k: nat) {
    PageNo(va + k * 0x1000) == vp + k && vp + k < VPAGES && !Reserved(vp + k)
  }

  predicate EntryStep(e: nat, k: nat) {
    e + k * 0x1000 < WORD_LIMIT && Present(e + k * 0x1000)
  }

  /** Whole-page steps from va and pa visit editable pages and make present entries. */
  ghost predicate Runs(va: nat, pa: nat, vp: nat, n: nat) {
    forall k :: 0 <= k < n ==> PageStep(va, vp, k) && EntryStep(pa, k)
  }

  lemma PageOfAligned(p: nat)
    ensures PageNo(p * 0x1000) == if p >= KSPACE_LOC / 0x1000 then p - NON_CANON_SIZE / 0x1000 else p
  {
  }

  lemma ClearSteps(vaddr: nat, va: nat, vp: nat, n: nat)
    requires Clear(vaddr, n) && va == vaddr - vaddr % 0x1000 && vp == PageNo(vaddr)
    ensures forall k :: 0 <= k < n ==> PageStep(va, vp, k)
  {
    hide Reserved;
    var q := vaddr / 0x1000;
    PageOfAligned(q);
    forall k | 0 <= k < n
      ensures PageStep(va, vp, k)
    {
      PageOfAligned(q + k);
    }
  }

  lemma EntryOfFrame(q: nat, fl: nat, k: nat)
    requires q + k < PHYS_FRAMES && GoodFlags(fl)
    ensures EntryStep(q * 0x1000 + fl, k)
  {
    assert (q * 0x1000 + fl + k * 0x1000) % 2 == fl % 2;
  }

  lemma FrameSteps(paddr: nat, fl: nat, e: nat, n: nat)
    requires e == paddr - paddr % 0x1000 + fl
    requires paddr / 0x1000 + n <= PHYS_FRAMES && GoodFlags(fl)
    ensures e == FirstEntry(paddr, fl) && Flagged(e, fl) && forall k :: 0 <= k < n ==> EntryStep(e, k)
  {
    assert Flagged(e, fl);
    hide EntryStep, GoodFlags;
    var q := paddr / 0x1000;
    forall k | 0 <= k < n
      ensures EntryStep(e, k)
    {
      EntryOfFrame(q, fl, k);
    }
  }

  /** Mapping pages vp .. vp+n-1 to the entries from e on: the missing tables were grown, hung from
      entries with the flags of e, exactly those pages were retranslated, and the ones that were cached
      are now recorded as stale. */
  ghost predicate RunMapped(s: Snapshot, t: Snapshot, c: Cache, d: Cache, vp: nat, n: nat, e: nat) {
    && Extends(s, t, TablesForRange(vp, n)) && Hangs(s, t, {e % 0x1000})
    && MapsRun(s.mem, t.mem, vp, n, e)
    && CachedFrom(c.tlb, d.tlb)
    && d.stale == c.stale + CachedRun(c.tlb, vp, n)
  }

  lemma RunMappedNothing(s: Snapshot, c: Cache, vp: nat, e: nat)
    requires Sound(s)
    ensures RunMapped(s, s, c, c, vp, 0, e)
  {
    hide Walk, Sound, Extends, Hangs;
    NothingExtends(s);
    HangsNothing(s);
    HangsMore(s, s, {}, {e % 0x1000});
    assert CachedRun(c.tlb, vp, 0) == {} && TablesForRange(vp, 0) == {};
  }

  /** The low bits of an entry. */
  predicate Flagged(e: nat, fl: nat) {
    e % 0x1000 == fl
  }

  /** One more page, by set_pt_entry. */
  lemma RunMappedStep(s: Snapshot, t: Snapshot, u: Snapshot, c: Cache, d: Cache, f: Cache, vp: nat, k: nat, e: nat,
                      fl: nat)
    requires RunMapped(s, t, c, d, vp, k, e) && EntrySet(t, u, d, f, vp + k, e + k * 0x1000, fl) && Flagged(e, fl)
    requires Present(e + k * 0x1000) && !Reserved(vp + k)
    ensures RunMapped(s, u, c, f, vp, k + 1, e)
  {
    hide Walk, Extends, Hangs, TablesFor, MapsRun;
    GrowthTransitive(s, t, u, TablesForRange(vp, k), TablesFor(vp + k), {e % 0x1000}, {e % 0x1000});
    assert {e % 0x1000} + {e % 0x1000} == {e % 0x1000};
    RunStep(s.mem, t.mem, u.mem, vp, k, e);
    assert CachedRun(c.tlb, vp, k + 1) == CachedRun(c.tlb, vp, k) + if vp + k in f.tlb then {vp + k} else {};
  }

  /** page_in: map pages from vaddr on to frames from paddr on.  Nothing is flushed. */
  method PageIn(m: Mmu, paddr: nat, vaddr: nat, size: nat, fl: nat)
    requires m.Valid() && m.Coherent()
    requires size > 0 ==>
               && Clear(vaddr, UnitsFor(size))
               && paddr / 0x1000 + UnitsFor(size) <= PHYS_FRAMES && GoodFlags(fl)
    requires Affords(m.Snap(), TablesForRange(PageNo(vaddr), UnitsFor(size)))
    modifies m`mem, m`tlb, m`tables, m`stale, m.pages, m.pages.repr
    ensures m.Valid() && m.Coherent() && m.pages.repr == old(m.pages.repr)
    ensures RunMapped(old(m.Snap()), m.Snap(), old(m.Cached()), m.Cached(),
                      PageNo(vaddr), UnitsFor(size), FirstEntry(paddr, fl))
  {
    hide Sound, Extends, Hangs, Walk, Affords, RunMapped, Fresh, FreeList.Regions, FreeList.Valid, RegionsOf,
      Clear, Reserved, Present, TablesForRange, PageStep, EntryStep, Flagged;
    var pa := paddr - paddr % 0x1000 + fl;
    var va := vaddr - vaddr % 0x1000;
    if size > 0 {
      ClearSteps(vaddr, va, PageNo(vaddr), UnitsFor(size));
      FrameSteps(paddr, fl, pa, UnitsFor(size));
    }
    var left := if size % 0x1000 != 0 then size - size % 0x1000 + 0x1000 else size;
    MapPages(m, pa, va, left, fl, PageNo(vaddr), UnitsFor(size));
  }

  /** The loop of page_in, on whole pages. */
  method MapPages(m: Mmu, paddr: nat, vaddr: nat, size: nat, fl: nat, ghost vp: nat, ghost n: nat)
    requires m.Valid() && m.Coherent()
    requires size == n * 0x1000
    requires Runs(vaddr, paddr, vp, n)
    requires size > 0 ==> GoodFlags(fl) && Flagged(paddr, fl)
    requires Affords(m.Snap(), TablesForRange(vp, n))
    modifies m`mem, m`tlb, m`tables, m`stale, m.pages, m.pages.repr
    ensures m.Valid() && m.Coherent() && m.pages.repr == old(m.pages.repr)
    ensures RunMapped(old(m.Snap()), m.Snap(), old(m.Cached()), m.Cached(), vp, n, paddr)
  {
    hide Sound, Extends, Hangs, Walk, Affords, RunMapped, Fresh, FreeList.Regions, FreeList.Valid, RegionsOf,
      PageNo, Reserved, Present, EntrySet, TablesFor, TablesForRange, Runs, GoodFlags, Mmu.Coherent, Mmu.Valid,
      Mmu.Snap, Mmu.Cached, Flagged, At;
    ghost var s0, c0 := m.Snap(), m.Cached();
    var pa, va, left := paddr, vaddr, size;
    ghost var k := 0;
    StartAt(paddr, vaddr, size, n);
    assert Sound(s0) by { ValidIsSound(m); }
    RunMappedNothing(s0, c0, vp, paddr);
    while left > 0
      invariant At(paddr, vaddr, n, pa, va, left, k)
      invariant m.Valid() && m.Coherent() && m.pages.repr == old(m.pages.repr)
      invariant RunMapped(s0, m.Snap(), c0, m.Cached(), vp, k, paddr)
      decreases left
    {
      ghost var s1, c1 := m.Snap(), m.Cached();
      StepsAllow(vaddr, paddr, vp, k, n, va, pa, left);
      AffordsNextPage(s0, s1, c0, c1, vp, k, n, paddr);
      m.SetPtEntry(va, pa, fl);
      RunMappedStep(s0, s1, m.Snap(), c0, c1, m.Cached(), vp, k, paddr, fl);
      va, pa, left, k := va + 0x1000, pa + 0x1000, left - 0x1000, k + 1;
    }
    EndAt(paddr, vaddr, n, pa, va, k);
  }

  /** Where the loop of page_in stands after k of n pages. */
  predicate At(paddr: nat, vaddr: nat, n: nat, pa: nat, va: nat, left: nat, k: nat) {
    k <= n && left == (n - k) * 0x1000 && va == vaddr + k * 0x1000 && pa == paddr + k * 0x1000
  }

  lemma StartAt(paddr: nat, vaddr: nat, size: nat, n: nat)
    requires size == n * 0x1000
    ensures At(paddr, vaddr, n, paddr, vaddr, size, 0)
  {
  }

  lemma EndAt(paddr: nat, vaddr: nat, n: nat, pa: nat, va: nat, k: nat)
    requires At(paddr, vaddr, n, pa, va, 0, k)
    ensures k == n
  {
  }

  lemma StepsAllow(vaddr: nat, paddr: nat, vp: nat, k: nat, n: nat, va: nat, pa: nat, left: nat)
    requires Runs(vaddr, paddr, vp, n) && At(paddr, vaddr, n, pa, va, left, k) && left > 0
    ensures k < n && PageNo(va) == vp + k && vp + k < VPAGES && !Reserved(vp + k)
    ensures pa < WORD_LIMIT && Present(pa) && pa == paddr + k * 0x1000
    ensures left >= 0x1000 && At(paddr, vaddr, n, pa + 0x1000, va + 0x1000, left - 0x1000, k + 1)
  {
    assert PageStep(vaddr, vp, k) && EntryStep(paddr, k);
  }

  lemma ValidIsSound(m: Mmu)
    requires m.Valid()
    ensures Sound(m.Snap())
  {
  }

  lemma AffordsNextPage(s: Snapshot, t: Snapshot, c: Cache, d: Cache, vp: nat, k: nat, n: nat, e: nat)
    requires RunMapped(s, t, c, d, vp, k, e) && k < n && Affords(s, TablesForRange(vp, n))
    ensures Affords(t, TablesFor(vp + k))
  {
    RangeStep(vp, k, n);
    AffordsNext(s, t, TablesForRange(vp, n), TablesForRange(vp, k), TablesFor(vp + k));
  }

  // ----- runs of edits -----

  /** One call of page_in, of set_pt_entry (which also unmaps, with an absent entry), or an INVLPG. */
  datatype Edit = Map(vp: nat, n: nat, e: nat) | SetEntry(vp: nat, val: nat, fl: nat) | Flush(vp: nat)

  ghost predicate EditDone(s: Snapshot, t: Snapshot, c: Cache, d: Cache, x: Edit) {
    match x
    case Map(vp, n, e) => RunMapped(s, t, c, d, vp, n, e)
    case SetEntry(vp, val, fl) => EntrySet(s, t, c, d, vp, val, fl)
    case Flush(vp) => t == s && d == Cache(c.tlb - {vp}, c.stale - {vp})
  }

  predicate Edits(x: Edit, p: nat) {
    match x
    case Map(vp, n, _) => vp <= p < vp + n
    case SetEntry(vp, _, _) => p == vp
    case Flush(_) => false
  }

  /** What an edit makes of a page that it edits: an entry, or none. */
  function Given(x: Edit, p: nat): Option<nat>
    requires Edits(x, p)
  {
    match x
    case Map(vp, n, e) => Some(e + (p - vp) * 0x1000)
    case SetEntry(_, val, _) => Leaf(val)
  }

  /** Page p after the edits, if its translation was `was` before: the last one that edits it counts. */
  function Overlaid(edits: seq<Edit>, p: nat, was: Option<nat>): Option<nat> {
    if edits == [] then was
    else
      var x := edits[|edits| - 1];
      if Edits(x, p) then Given(x, p) else Overlaid(edits[..|edits| - 1], p, was)
  }

  predicate WasFlushed(edits: seq<Edit>, p: nat) {
    exists i :: 0 <= i < |edits| && edits[i] == Flush(p)
  }

  predicate WasEdited(edits: seq<Edit>, p: nat) {
    exists i :: 0 <= i < |edits| && Edits(edits[i], p)
  }

  ghost function TablesForEdit(x: Edit): set<Key> {
    match x
    case Map(vp, n, _) => TablesForRange(vp, n)
    case SetEntry(vp, _, _) => TablesFor(vp)
    case Flush(_) => {}
  }

  ghost function TablesForEdits(edits: seq<Edit>): set<Key> {
    if edits == [] then {} else TablesForEdits(edits[..|edits| - 1]) + TablesForEdit(edits[|edits| - 1])
  }

  /** States and caches between edits. */
  ghost predicate EditRun(ss: seq<Snapshot>, cs: seq<Cache>, edits: seq<Edit>) {
    && |ss| == |cs| == |edits| + 1
    && forall i :: 0 <= i < |edits| ==> EditDone(ss[i], ss[i + 1], cs[i], cs[i + 1], edits[i])
  }

  /** Over every run of edits the tables are a plain page map: each page translates, or does not, as the
      last edit of it says, or as before, whatever tables were grown in between.  The TLB lags behind:
      an entry is stale exactly if it was there from the start, its page was edited, and it was never
      flushed. */
  lemma {:induction false} EditsCompose(ss: seq<Snapshot>, cs: seq<Cache>, edits: seq<Edit>)
    requires EditRun(ss, cs, edits) && Sound(ss[0]) && cs[0].stale == {}
    ensures Extends(ss[0], ss[|edits|], TablesForEdits(edits))
    ensures forall p: nat :: p < VPAGES && p != SCRATCH ==>
              Walk(ss[|edits|].mem, p) == Overlaid(edits, p, Walk(ss[0].mem, p))
    ensures forall p: nat :: !Reserved(p) ==>
              && (p in cs[|edits|].tlb <==> p in cs[0].tlb && !WasFlushed(edits, p))
              && (p in cs[|edits|].stale <==> p in cs[0].tlb && !WasFlushed(edits, p) && WasEdited(edits, p))
    decreases |edits|
  {
    hide Walk, Extends, Hangs, Sound, TablesForRange, TablesFor, EditDone, Reserved, Edits, Given, WasFlushed,
      WasEdited;
    if edits == [] {
      NothingExtends(ss[0]);
      NothingEdited();
    } else {
      var n := |edits| - 1;
      var init, x := edits[..n], edits[n];
      assert forall i :: 0 <= i < |init| ==> init[i] == edits[i];
      EditsCompose(ss[..n + 1], cs[..n + 1], init);
      assert EditDone(ss[n], ss[n + 1], cs[n], cs[n + 1], x);
      LastEdit(ss[n], ss[n + 1], cs[n], cs[n + 1], x);
      if x.Flush? {
        assert TablesForEdits(init) + {} == TablesForEdits(init);
      } else {
        ExtendsTransitive(ss[0], ss[n], ss[n + 1], TablesForEdits(init), TablesForEdit(x));
      }
      forall p: nat
        ensures WasFlushed(edits, p) <==> WasFlushed(init, p) || x == Flush(p)
        ensures WasEdited(edits, p) <==> WasEdited(init, p) || Edits(x, p)
      {
        OneEditMore(init, x, p);
        assert init + [x] == edits;
      }
    }
  }

  lemma NothingEdited()
    ensures forall p: nat :: !WasFlushed([], p) && !WasEdited([], p)
  {
  }

  lemma OneEditMore(init: seq<Edit>, x: Edit, p: nat)
    ensures WasFlushed(init + [x], p) <==> WasFlushed(init, p) || x == Flush(p)
    ensures WasEdited(init + [x], p) <==> WasEdited(init, p) || Edits(x, p)
  {
    hide Edits;
    var edits := init + [x];
    assert edits[|init|] == x;
    assert forall i :: 0 <= i < |init| ==> edits[i] == init[i];
  }

  lemma LastEdit(s: Snapshot, t: Snapshot, c: Cache, d: Cache, x: Edit)
    requires EditDone(s, t, c, d, x)
    ensures if x.Flush? then t == s else Extends(s, t, TablesForEdit(x))
    ensures forall p: nat :: p < VPAGES && p != SCRATCH ==>
              Walk(t.mem, p) == if Edits(x, p) then Given(x, p) else Walk(s.mem, p)
    ensures forall p: nat :: !Reserved(p) ==>
              && (p in d.tlb <==> p in c.tlb && x != Flush(p))
              && (p in d.stale <==> x != Flush(p) && (p in c.stale || (p in c.tlb && Edits(x, p))))
  {
    hide Walk, Extends, Hangs, Reserved;
  }
}
