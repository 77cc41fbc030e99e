/** Exchanging one workspace for another: unmap and flush the old list, map the new one. */
module SpaceSwitch {
  import opened Bytes
  import opened Options
  import opened PageTables
  import opened PageManager
  import opened FrameSupply
  import opened PagingUnit
  import opened Workspaces
  import opened Paging

  // ----- unmapping one extent -----

  /** Pages vp .. vp+n-1 were unmapped and flushed, tables that were missing hung with the flags fl. */
  ghost predicate RunCleared(s: Snapshot, t: Snapshot, c: Cache, d: Cache, vp: nat, n: nat, fl: nat) {
    && Extends(s, t, TablesForRange(vp, n)) && Hangs(s, t, {fl})
    && (forall p :: 0 <= p < VPAGES && p != SCRATCH ==>
          Walk(t.mem, p) == if vp <= p < vp + n then None else Walk(s.mem, p))
    && (forall p: nat :: Reserved(p) ||
          ((p in d.tlb <==> p in c.tlb && !(vp <= p < vp + n)) && (p in d.tlb ==> d.tlb[p] == c.tlb[p])))
    && (forall p :: p in d.stale <==> p in c.stale && !(vp <= p < vp + n))
  }

  lemma RunClearedNothing(s: Snapshot, c: Cache, vp: nat, fl: nat)
    requires Sound(s)
    ensures RunCleared(s, s, c, c, vp, 0, fl)
  {
    hide Walk, Sound, Extends, Hangs;
    NothingExtends(s);
    HangsNothing(s);
    HangsMore(s, s, {}, {fl});
    assert TablesForRange(vp, 0) == {};
  }

  /** One more page, by set_pt_entry with an absent entry and then an INVLPG. */
  lemma RunClearedStep(s: Snapshot, t: Snapshot, u: Snapshot, c: Cache, d: Cache, f: Cache, vp: nat, k: nat, fl: nat)
    requires RunCleared(s, t, c, d, vp, k, fl) && EntrySet(t, u, d, f, vp + k, 0, fl) && !Reserved(vp + k)
    ensures RunCleared(s, u, c, Cache(f.tlb - {vp + k}, f.stale - {vp + k}), vp, k + 1, fl)
  {
    hide Walk, Extends, Hangs, TablesFor;
    GrowthTransitive(s, t, u, TablesForRange(vp, k), TablesFor(vp + k), {fl}, {fl});
    assert {fl} + {fl} == {fl};
  }

  /** The pages an extent covers can be stepped through and edited. */
  lemma GoodSteps(e: Extent)
    requires e.size != 0 ==> e.Good()
    ensures forall k :: 0 <= k < e.Count() ==> UserStep(e.vbase, k)
    ensures e.size != 0 ==> Clear(e.vbase, e.Count())
    ensures PageNo(e.vbase) == e.First() || e.size == 0
  {
  }

  /** The byte counter passes the size with the last page. */
  lemma LastStep(e: Extent, k: nat)
    requires k == 0 || (k - 1) * 0x1000 < e.size
    ensures k <= e.Count() && (k * 0x1000 < e.size || k == e.Count())
  {
  }

  lemma StepInExtent(e: Extent, k: nat)
    requires k * 0x1000 < e.size && e.Good()
    ensures k < e.Count() && GoodFlags(e.flags)
    ensures PageNo(e.vbase + k * 0x1000) == e.First() + k < VPAGES && !Reserved(e.First() + k)
  {
    GoodSteps(e);
    assert UserStep(e.vbase, k);
  }

  predicate UserStep(vbase: nat, k: nat) {
    var p := vbase / 0x1000 + k;
    PageNo(vbase + k * 0x1000) == p && p < VPAGES && !Reserved(p)
  }

  method UnmapExtent(m: Mmu, e: Extent)
    requires m.Valid() && m.Coherent()
    requires e.size != 0 ==> e.Good()
    requires Affords(m.Snap(), TablesForRange(e.First(), e.Count()))
    modifies m`mem, m`tlb, m`tables, m`stale, m.pages, m.pages.repr
    ensures m.Valid() && m.Coherent() && m.pages.repr == old(m.pages.repr)
    ensures RunCleared(old(m.Snap()), m.Snap(), old(m.Cached()), m.Cached(),
                       e.First(), e.Count(), e.flags)
  {
    hide Sound, Extends, Hangs, Walk, Affords, RunCleared, FreeList.Regions, FreeList.Valid, RegionsOf,
      EntrySet, Reserved, TablesFor, TablesForRange, PageNo, GoodFlags, Extent.Good, Extent.Count, Extent.First,
      Mmu.Coherent, Mmu.Valid, Mmu.Snap;
    ghost var s0, c0 := m.Snap(), m.Cached();
    ValidIsSound(m);
    RunClearedNothing(s0, c0, e.First(), e.flags);
    LastStep(e, 0);
    var i := 0;
    ghost var k := 0;
    while i < e.size
      invariant i == k * 0x1000 && k <= e.Count() && (i < e.size || k == e.Count())
      invariant m.Valid() && m.Coherent() && m.pages.repr == old(m.pages.repr)
      invariant RunCleared(s0, m.Snap(), c0, m.Cached(), e.First(), k, e.flags)
    {
      ghost var s1, c1 := m.Snap(), m.Cached();
      StepInExtent(e, k);
      AffordsNextCleared(s0, s1, c0, c1, e.First(), k, e.Count(), e.flags);
      m.SetPtEntry(e.vbase + i, 0, e.flags);
      RunClearedStep(s0, s1, m.Snap(), c0, c1, m.Cached(), e.First(), k, e.flags);
      m.Invlpg(e.vbase + i);
      i := i + 0x1000;
      k := k + 1;
      LastStep(e, k);
    }
  }

  lemma AffordsNextCleared(s: Snapshot, t: Snapshot, c: Cache, d: Cache, vp: nat, k: nat, n: nat, fl: nat)
    requires RunCleared(s, t, c, d, vp, k, fl) && k < n && Affords(s, TablesForRange(vp, n))
    ensures Affords(t, TablesFor(vp + k))
  {
    RangeStep(vp, k, n);
    AffordsNext(s, t, TablesForRange(vp, n), TablesForRange(vp, k), TablesFor(vp + k));
  }

  // ----- the two loops of swap_ws, over whole lists -----

  ghost function TablesForAll(es: seq<Extent>): set<Key> {
    if es == [] then {}
    else TablesForAll(es[..|es| - 1]) + TablesForRange(es[|es| - 1].First(), es[|es| - 1].Count())
  }

  lemma {:induction false} TablesForPrefix(es: seq<Extent>, k: nat)
    requires k < |es|
    ensures TablesForAll(es[..k + 1]) == TablesForAll(es[..k]) + TablesForRange(es[k].First(), es[k].Count())
    ensures TablesForAll(es[..k + 1]) <= TablesForAll(es)
    decreases |es|
  {
    assert es[..k + 1][..k] == es[..k];
    if k + 1 < |es| {
      TablesForPrefix(es[..|es| - 1], k);
      assert es[..|es| - 1][..k + 1] == es[..k + 1];
    } else {
      assert es[..k + 1] == es;
    }
  }

  lemma CoveredPrefix(es: seq<Extent>, k: nat, vp: nat)
    requires k < |es|
    ensures Covered(es[..k + 1], vp) <==> Covered(es[..k], vp) || es[k].Covers(vp)
  {
    MappedPrefix(es, k, vp);
    MappedIffCovered(es[..k], vp);
    MappedIffCovered(es[..k + 1], vp);
  }

  lemma MappedPrefix(es: seq<Extent>, k: nat, vp: nat)
    requires k < |es|
    ensures Mapped(es[..k + 1], vp) == if es[k].Covers(vp) then Some(es[k].EntryFor(vp)) else Mapped(es[..k], vp)
  {
    assert es[..k + 1][..k] == es[..k];
  }

  /** The flags that a list's pages are mapped with. */
  ghost function FlagsOf(es: seq<Extent>): set<nat> {
    set e | e in es && e.size != 0 :: e.flags
  }

  lemma FlagsPrefix(es: seq<Extent>, k: nat)
    requires k < |es|
    ensures FlagsOf(es[..k + 1]) == FlagsOf(es[..k]) + if es[k].size != 0 then {es[k].flags} else {}
  {
    var l, r := FlagsOf(es[..k + 1]), FlagsOf(es[..k]) + if es[k].size != 0 then {es[k].flags} else {};
    forall f | f in l
      ensures f in r
    {
      var e :| e in es[..k + 1] && e.size != 0 && e.flags == f;
      assert e in es[..k] || e == es[k];
    }
    forall f | f in r
      ensures f in l
    {
      if f in FlagsOf(es[..k]) {
        var e :| e in es[..k] && e.size != 0 && e.flags == f;
        assert e in es[..k + 1];
      } else {
        assert es[..k + 1][k] == es[k];
      }
    }
  }

  /** One extent's tables after those of the list before it. */
  lemma HangsPrefix(s: Snapshot, t: Snapshot, u: Snapshot, es: seq<Extent>, k: nat, fl: nat)
    requires k < |es| && Extends(s, t, TablesForAll(es[..k])) && Hangs(s, t, FlagsOf(es[..k]))
    requires Extends(t, u, TablesForRange(es[k].First(), es[k].Count())) && Hangs(t, u, {fl})
    requires es[k].size != 0 ==> fl == es[k].flags
    ensures Extends(s, u, TablesForAll(es[..k + 1])) && Hangs(s, u, FlagsOf(es[..k + 1]))
  {
    hide Extends, Hangs, TablesForAll, TablesForRange, FlagsOf;
    TablesForPrefix(es, k);
    FlagsPrefix(es, k);
    if es[k].size == 0 {
      NoTablesNoFlags(t, u, es[k], {fl});
      GrowthTransitive(s, t, u, TablesForAll(es[..k]), TablesForRange(es[k].First(), es[k].Count()),
          FlagsOf(es[..k]), {});
    } else {
      GrowthTransitive(s, t, u, TablesForAll(es[..k]), TablesForRange(es[k].First(), es[k].Count()), FlagsOf(es[..k]),
                       {fl});
    }
  }

  lemma NoTablesNoFlags(s: Snapshot, t: Snapshot, e: Extent, F: set<nat>)
    requires e.size == 0 && Extends(s, t, TablesForRange(e.First(), e.Count())) && Hangs(s, t, F)
    ensures Hangs(s, t, {})
  {
    hide Extends, Hangs;
    assert e.Count() == 0 && TablesForRange(e.First(), 0) == {};
    ExtendsKeepsTables(s, t, {});
    HangsNone(s, t, F);
  }

  /** Every page of the list was unmapped and flushed. */
  ghost predicate ListCleared(s: Snapshot, t: Snapshot, c: Cache, d: Cache, es: seq<Extent>) {
    && Extends(s, t, TablesForAll(es)) && Hangs(s, t, FlagsOf(es))
    && (forall p :: 0 <= p < VPAGES && p != SCRATCH ==>
          Walk(t.mem, p) == if Covered(es, p) then None else Walk(s.mem, p))
    && (forall p: nat :: Reserved(p) ||
          ((p in d.tlb <==> p in c.tlb && !Covered(es, p)) && (p in d.tlb ==> d.tlb[p] == c.tlb[p])))
    && (forall p :: p in d.stale <==> p in c.stale && !Covered(es, p))
  }

  /** The list was mapped over what was there; its pages that were cached are stale. */
  ghost predicate ListMapped(s: Snapshot, t: Snapshot, c: Cache, d: Cache, es: seq<Extent>) {
    && Extends(s, t, TablesForAll(es)) && Hangs(s, t, FlagsOf(es))
    && (forall p :: 0 <= p < VPAGES && p != SCRATCH ==>
          Walk(t.mem, p) == match Mapped(es, p) case Some(e) => Some(e) case None => Walk(s.mem, p))
    && CachedFrom(c.tlb, d.tlb)
    && (forall p :: p in d.stale <==> p in c.stale || (p in c.tlb && Covered(es, p)))
  }

  lemma ListClearedStep(s: Snapshot, t: Snapshot, u: Snapshot, c: Cache, d: Cache, f: Cache,
                        es: seq<Extent>, k: nat)
    requires k < |es| && ListCleared(s, t, c, d, es[..k])
    requires RunCleared(t, u, d, f, es[k].First(), es[k].Count(), es[k].flags)
    ensures ListCleared(s, u, c, f, es[..k + 1])
  {
    hide Walk, Extends, Hangs, FlagsOf, TablesForRange, TablesForAll, Covered;
    HangsPrefix(s, t, u, es, k, es[k].flags);
    forall p: nat
      ensures Covered(es[..k + 1], p) <==> Covered(es[..k], p) || es[k].Covers(p)
    {
      CoveredPrefix(es, k, p);
    }
  }

  lemma ListMappedStep(s: Snapshot, t: Snapshot, u: Snapshot, c: Cache, d: Cache, f: Cache,
                       es: seq<Extent>, k: nat)
    requires k < |es| && ListMapped(s, t, c, d, es[..k])
    requires RunMapped(t, u, d, f, es[k].First(), es[k].Count(), FirstEntry(es[k].pbase, es[k].flags))
    requires (forall p: nat :: es[k].Covers(p) ==> !Reserved(p)) && (es[k].size != 0 ==> es[k].flags < 0x1000)
    ensures ListMapped(s, u, c, f, es[..k + 1])
  {
    hide Walk, Extends, Hangs, FlagsOf, TablesForRange, TablesForAll, Covered, Mapped, Reserved;
    if es[k].size != 0 { LowBits(es[k].pbase / 0x1000 * 0x1000, es[k].flags); }
    HangsPrefix(s, t, u, es, k, FirstEntry(es[k].pbase, es[k].flags) % 0x1000);
    forall p: nat
      ensures Covered(es[..k + 1], p) <==> Covered(es[..k], p) || es[k].Covers(p)
      ensures Mapped(es[..k + 1], p) == if es[k].Covers(p) then Some(es[k].EntryFor(p)) else Mapped(es[..k], p)
    {
      CoveredPrefix(es, k, p);
      MappedPrefix(es, k, p);
    }
  }

  method UnmapAll(m: Mmu, es: seq<Extent>)
    requires m.Valid() && m.Coherent() && AllGood(es)
    requires Affords(m.Snap(), TablesForAll(es))
    modifies m`mem, m`tlb, m`tables, m`stale, m.pages, m.pages.repr
    ensures m.Valid() && m.Coherent() && m.pages.repr == old(m.pages.repr)
    ensures ListCleared(old(m.Snap()), m.Snap(), old(m.Cached()), m.Cached(), es)
  {
    hide Sound, Affords, ListCleared, RunCleared, TablesForAll, TablesForRange, Extent.Good,
      FreeList.Regions, FreeList.Valid, RegionsOf, Mmu.Coherent, Mmu.Valid, Mmu.Snap;
    ghost var s0, c0 := m.Snap(), m.Cached();
    ValidIsSound(m);
    ListNothing(s0, c0);
    var k := 0;
    while k < |es|
      invariant k <= |es|
      invariant m.Valid() && m.Coherent() && m.pages.repr == old(m.pages.repr)
      invariant ListCleared(s0, m.Snap(), c0, m.Cached(), es[..k])
    {
      ghost var s1, c1 := m.Snap(), m.Cached();
      AffordsClearing(s0, s1, c0, c1, es, k);
      UnmapExtent(m, es[k]);
      ListClearedStep(s0, s1, m.Snap(), c0, c1, m.Cached(), es, k);
      k := k + 1;
    }
    assert es[..k] == es;
  }

  method MapAll(m: Mmu, es: seq<Extent>)
    requires m.Valid() && m.Coherent() && AllGood(es)
    requires Affords(m.Snap(), TablesForAll(es))
    modifies m`mem, m`tlb, m`tables, m`stale, m.pages, m.pages.repr
    ensures m.Valid() && m.Coherent() && m.pages.repr == old(m.pages.repr)
    ensures ListMapped(old(m.Snap()), m.Snap(), old(m.Cached()), m.Cached(), es)
  {
    hide Sound, Affords, ListMapped, RunMapped, TablesForAll, TablesForRange, Extent.Good,
      FreeList.Regions, FreeList.Valid, RegionsOf, Mmu.Coherent, Mmu.Valid, Mmu.Snap, Clear, GoodFlags, UnitsFor,
      PageNo, FirstEntry;
    ghost var s0, c0 := m.Snap(), m.Cached();
    ValidIsSound(m);
    ListNothing(s0, c0);
    var k := 0;
    while k < |es|
      invariant k <= |es|
      invariant m.Valid() && m.Coherent() && m.pages.repr == old(m.pages.repr)
      invariant ListMapped(s0, m.Snap(), c0, m.Cached(), es[..k])
    {
      ghost var s1, c1 := m.Snap(), m.Cached();
      GoodToMap(es[k]);
      SameRange(es[k]);
      AffordsMapping(s0, s1, c0, c1, es, k);
      PageIn(m, es[k].pbase, es[k].vbase, es[k].size, es[k].flags);
      PageNoOfExtent(s1, m.Snap(), c1, m.Cached(), es[k]);
      ListMappedStep(s0, s1, m.Snap(), c0, c1, m.Cached(), es, k);
      k := k + 1;
    }
    assert es[..k] == es;
  }

  lemma ListNothing(s: Snapshot, c: Cache)
    requires Sound(s)
    ensures ListCleared(s, s, c, c, []) && ListMapped(s, s, c, c, [])
  {
    hide Walk, Sound, Extends, Hangs;
    NothingExtends(s);
    HangsNothing(s);
    assert FlagsOf([]) == {};
  }

  lemma AffordsClearing(s: Snapshot, t: Snapshot, c: Cache, d: Cache, es: seq<Extent>, k: nat)
    requires k < |es| && ListCleared(s, t, c, d, es[..k]) && Affords(s, TablesForAll(es))
    ensures Affords(t, TablesForRange(es[k].First(), es[k].Count()))
  {
    TablesForPrefix(es, k);
    AffordsNext(s, t, TablesForAll(es), TablesForAll(es[..k]), TablesForRange(es[k].First(), es[k].Count()));
  }

  lemma AffordsMapping(s: Snapshot, t: Snapshot, c: Cache, d: Cache, es: seq<Extent>, k: nat)
    requires k < |es| && ListMapped(s, t, c, d, es[..k]) && Affords(s, TablesForAll(es))
    ensures Affords(t, TablesForRange(es[k].First(), es[k].Count()))
  {
    hide Walk, Mapped, Covered, CachedFrom;
    TablesForPrefix(es, k);
    AffordsNext(s, t, TablesForAll(es), TablesForAll(es[..k]), TablesForRange(es[k].First(), es[k].Count()));
  }

  lemma SameRange(e: Extent)
    requires e.size != 0 ==> PageNo(e.vbase) == e.First()
    ensures UnitsFor(e.size) == e.Count()
    ensures TablesForRange(PageNo(e.vbase), UnitsFor(e.size)) == TablesForRange(e.First(), e.Count())
  {
    hide PageNo;
    if e.size == 0 {
      assert TablesForRange(PageNo(e.vbase), 0) == {} == TablesForRange(e.First(), 0);
    }
  }

  lemma GoodToMap(e: Extent)
    requires e.size != 0 ==> e.Good()
    ensures e.size > 0 ==>
              && Clear(e.vbase, UnitsFor(e.size)) && PageNo(e.vbase) == e.First()
              && e.pbase / 0x1000 + UnitsFor(e.size) <= PHYS_FRAMES && GoodFlags(e.flags)
    ensures (forall p: nat :: e.Covers(p) ==> !Reserved(p)) && (e.size != 0 ==> e.flags < 0x1000)
  {
    GoodSteps(e);
  }

  lemma PageNoOfExtent(s: Snapshot, t: Snapshot, c: Cache, d: Cache, e: Extent)
    requires RunMapped(s, t, c, d, PageNo(e.vbase), UnitsFor(e.size), FirstEntry(e.pbase, e.flags))
    requires e.size != 0 ==> PageNo(e.vbase) == e.First()
    ensures RunMapped(s, t, c, d, e.First(), e.Count(), FirstEntry(e.pbase, e.flags))
  {
    if e.size == 0 {
      assert TablesForRange(PageNo(e.vbase), 0) == TablesForRange(e.First(), 0);
      assert CachedRun(c.tlb, PageNo(e.vbase), 0) == CachedRun(c.tlb, e.First(), 0);
    }
  }

  // ----- the exchange as a whole -----

  /** What swap_ws does when the old list is `out` and the new one is `into`: the new list is mapped,
      the rest of the old one is not; every page of the old list was flushed, and the pages of the
      new list that were cached without being in the old one are stale. */
  ghost predicate Swapped(s: Snapshot, t: Snapshot, c: Cache, d: Cache, out: seq<Extent>, into: seq<Extent>) {
    && Extends(s, t, TablesForAll(out) + TablesForAll(into)) && Hangs(s, t, FlagsOf(out) + FlagsOf(into))
    && (forall p :: 0 <= p < VPAGES && p != SCRATCH ==>
          Walk(t.mem, p) == match Mapped(into, p)
                            case Some(e) => Some(e)
                            case None => if Covered(out, p) then None else Walk(s.mem, p))
    && (forall p: nat :: Reserved(p) ||
          ((p in d.tlb <==> p in c.tlb && !Covered(out, p)) && (p in d.tlb ==> d.tlb[p] == c.tlb[p])))
    && (forall p: nat :: !Reserved(p) ==>
          (p in d.stale <==> !Covered(out, p) && (p in c.stale || (p in c.tlb && Covered(into, p)))))
  }

  lemma ClearedThenMapped(s: Snapshot, t: Snapshot, u: Snapshot, c: Cache, d: Cache, f: Cache,
                          out: seq<Extent>, into: seq<Extent>)
    requires ListCleared(s, t, c, d, out) && ListMapped(t, u, d, f, into)
    ensures Swapped(s, u, c, f, out, into)
  {
    hide Walk, Extends, Hangs, FlagsOf, TablesForAll, Covered, Mapped, Reserved;
    GrowthTransitive(s, t, u, TablesForAll(out), TablesForAll(into), FlagsOf(out), FlagsOf(into));
  }

  /** Swapping leaves nothing stale exactly when no page of the new list that is not in the old
      one was cached before. */
  lemma SwapLeavesNothingStaleIff(s: Snapshot, t: Snapshot, c: Cache, d: Cache, out: seq<Extent>, into: seq<Extent>)
    requires Swapped(s, t, c, d, out, into) && c.stale == {}
    requires forall p :: p in d.stale ==> !Reserved(p)
    requires forall p: nat :: Covered(into, p) ==> !Reserved(p)
    ensures d.stale == {} <==> forall p: nat :: p in c.tlb && Covered(into, p) ==> Covered(out, p)
  {
    hide Walk, Extends, Covered, Mapped;
    if d.stale == {} {
      forall p | p in c.tlb && Covered(into, p)
        ensures Covered(out, p)
      {
        assert p !in d.stale;
      }
    }
  }
}
