/** Who owns which frame, and what user space sees: the invariant that workspace exchanges and
    page faults keep. */
module AddressSpaces {
  import opened Bytes
  import opened Options
  import opened PageTables
  import opened PageManager
  import opened FrameSupply
  import opened PagingUnit
  import opened Workspaces
  import opened Paging
  import opened SpaceSwitch

  const CODE_DATA_WS := 0
  const STACK_WS := 1

  datatype Owner = Space(w: Workspace, vp: nat) | KernelPage(vp: nat)

  type Lists = map<Workspace, seq<Extent>>

  /** Each frame that some workspace uses is owned by that workspace at that page; owned frames
      are neither free nor page tables.  As `owner` is a map, no frame has two owners. */
  ghost predicate Owned(lists: Lists, owner: map<nat, Owner>, s: Snapshot) {
    && (forall w, i, p: nat {:trigger lists[w][i].FrameFor(p)} ::
          w in lists && 0 <= i < |lists[w]| && lists[w][i].Covers(p) ==>
          lists[w][i].FrameFor(p) in owner && owner[lists[w][i].FrameFor(p)] == Space(w, p))
    && (forall f :: f in owner ==> f < PHYS_FRAMES && !FreeFrame(s.regions, f) && !IsTable(s.tables, f))
  }

  /** Code pages lie below the split, stack pages above it, all of them in user space. */
  ghost predicate InPlace(lists: Lists, stacks: set<Workspace>) {
    forall w, p: nat :: w in lists && Covered(lists[w], p) ==>
      USER_FIRST <= p < USER_LIMIT && (w in stacks <==> p > SPLIT_PAGE)
  }

  /** The pages of user space that the boot code mapped one to one.  Until a code workspace is in
      place nothing is said of them, but that none is cached. */
  predicate LowPage(p: nat) {
    USER_FIRST <= p < 0x1FF
  }

  ghost predicate LowUnseen(tlb: map<nat, nat>) {
    forall p: nat :: LowPage(p) ==> p !in tlb
  }

  /** Every code workspace covers the low pages: putting one in place maps them anew. */
  ghost predicate CoverLow(lists: Lists, stacks: set<Workspace>) {
    forall w, p: nat :: w in lists && w !in stacks && LowPage(p) ==> Covered(lists[w], p)
  }

  /** User space translates as the list es says, the low pages aside if `low`. */
  ghost predicate View(m: Mem, es: seq<Extent>, low: bool) {
    forall p: nat :: USER_FIRST <= p < USER_LIMIT && !(low && LowPage(p)) ==> Walk(m, p) == Mapped(es, p)
  }

  /** Enough frames for the tables `need`, none of them somebody's: free ones and, if it holds no table
      and nobody owns it, frame 0. */
  ghost predicate Finds(s: Snapshot, owner: map<nat, Owner>, need: set<Key>) {
    |s.tables.Keys + need| <=
      FreeCount(s.regions) + |s.tables| + if IsTable(s.tables, 0) || 0 in owner then 0 else 1
  }

  /** Growing tables takes an owned frame only if there are no others left, and then it takes frame 0. */
  lemma OwnedExtends(lists: Lists, owner: map<nat, Owner>, s: Snapshot, t: Snapshot, need: set<Key>)
    requires Owned(lists, owner, s) && Extends(s, t, need)
    ensures Owned(lists, owner, t) <==> Finds(s, owner, need)
    ensures Finds(s, owner, need) ==> forall f :: f in owner ==> PageAt(t.mem, f) == PageAt(s.mem, f)
  {
    hide FreeFrame, PageAt, FreeCount;
    TableInZeroIff(owner, s, t, need);
    forall f | f in owner && f != 0
      ensures !IsTable(t.tables, f)
    {
      assert forall k :: k in t.tables && k in s.tables ==>
          t.tables[k] == s.tables[k] && IsTable(s.tables, s.tables[k]);
    }
  }

  lemma TableInZeroIff(owner: map<nat, Owner>, s: Snapshot, t: Snapshot, need: set<Key>)
    requires Extends(s, t, need) && (0 in owner ==> !IsTable(s.tables, 0))
    ensures 0 in owner && IsTable(t.tables, 0) <==> !Finds(s, owner, need)
  {
    hide FreeFrame, FreeCount, NewTablesWereFree, FreeButTables, OthersKept, IsTable;
    FramesPersist(s.tables, t.tables);
    assert |t.tables| == |t.tables.Keys| == |s.tables.Keys + need|;
  }

  lemma FindsLess(s: Snapshot, owner: map<nat, Owner>, need: set<Key>, less: set<Key>)
    requires Finds(s, owner, need) && less <= need
    ensures Finds(s, owner, less) && Affords(s, less)
  {
    hide FreeCount, IsTable;
    CardSubset(s.tables.Keys + less, s.tables.Keys + need);
  }

  lemma FindsAfter(s: Snapshot, t: Snapshot, owner: map<nat, Owner>, need: set<Key>, more: set<Key>)
    requires Finds(s, owner, need + more) && Extends(s, t, need)
    ensures Finds(t, owner, more) && Affords(t, more)
  {
    hide FreeCount, IsTable, NewTablesWereFree, FreeButTables, OthersKept;
    FramesPersist(s.tables, t.tables);
    assert t.tables.Keys + more == s.tables.Keys + (need + more);
  }

  ghost predicate Translates(s: Snapshot, p: nat) {
    p < VPAGES && Walk(s.mem, p).Some?
  }

  /** Pages that translate already have all their tables. */
  lemma {:induction false} MappedHaveTables(s: Snapshot, es: seq<Extent>)
    requires Sound(s)
    requires forall p: nat :: Covered(es, p) ==> Translates(s, p)
    ensures TablesForAll(es) <= s.tables.Keys
    decreases |es|
  {
    hide Sound, Translates, TablesForRange, Covered;
    if es != [] {
      var init, last := es[..|es| - 1], es[|es| - 1];
      forall p: nat
        ensures Covered(init, p) || last.Covers(p) ==> Covered(es, p)
      {
        assert es[..|es| - 1 + 1] == es;
        CoveredPrefix(es, |es| - 1, p);
      }
      MappedHaveTables(s, init);
      RangeHasTables(s, last.First(), last.Count());
    }
  }

  lemma {:induction false} RangeHasTables(s: Snapshot, vp: nat, n: nat)
    requires Sound(s)
    requires forall p: nat :: vp <= p < vp + n ==> Translates(s, p)
    ensures TablesForRange(vp, n) <= s.tables.Keys
    decreases n
  {
    hide Sound, Translates, TablesFor;
    if n > 0 {
      RangeHasTables(s, vp, n - 1);
      assert Translates(s, vp + n - 1);
      PageHasTables(s, vp + n - 1);
    }
  }

  lemma PageHasTables(s: Snapshot, p: nat)
    requires Sound(s) && Translates(s, p)
    ensures TablesFor(p) <= s.tables.Keys
  {
    hide Entry, TableOf, Paged, FreeFrame, Maps;
    WalkIsLookup(s.mem, s.tables, p);
    TreeShape(s.mem, s.tables);
    PathKeys(s.tables, p);
  }

  /** The list a workspace pointer stands for. */
  ghost function ListOf(lists: Lists, w: Workspace?): seq<Extent> {
    if w == null || w !in lists then [] else lists[w]
  }

  /** Every page of the list is mapped for programs to read and write. */
  ghost predicate AllOpen(es: seq<Extent>) {
    forall e :: e in es && e.size != 0 ==> UserBits(e.flags)
  }

  lemma FlagsOpen(es: seq<Extent>)
    requires AllOpen(es)
    ensures forall f :: f in FlagsOf(es) ==> UserBits(f)
  {
    hide UserBits;
  }

  /** The invariant of user space: each list is well formed and in its own part of user space,
      every frame used has one owner, and the tables say exactly what the two lists seen say, with access
      for programs all the way down. */
  ghost predicate Consistent(lists: Lists, stacks: set<Workspace>, owner: map<nat, Owner>, s: Snapshot,
                             code: Workspace?, stack: Workspace?)
  {
    && (forall w :: w in lists ==> lists[w] != [] && AllGood(lists[w]) && AllOpen(lists[w]))
    && UserOpen(s)
    && InPlace(lists, stacks) && CoverLow(lists, stacks)
    && Owned(lists, owner, s)
    && Seated(lists, stacks, code, stack)
    && View(s.mem, ListOf(lists, code) + ListOf(lists, stack), code == null)
  }

  /** A code workspace and a stack workspace, or nothing, in their two places. */
  ghost predicate Seated(lists: Lists, stacks: set<Workspace>, code: Workspace?, stack: Workspace?) {
    && (code != null ==> code in lists && code !in stacks)
    && (stack != null ==> stack in lists && stack in stacks)
  }

  // ----- exchanging a workspace, on values -----

  /** `other` is the list of the workspace that stays. */
  ghost predicate Apart(es: seq<Extent>, fs: seq<Extent>) {
    forall p: nat :: !(Covered(es, p) && Covered(fs, p))
  }

  lemma SeatsApart(lists: Lists, stacks: set<Workspace>, code: Workspace?, stack: Workspace?)
    requires InPlace(lists, stacks) && Seated(lists, stacks, code, stack)
    ensures Apart(ListOf(lists, code), ListOf(lists, stack)) && Apart(ListOf(lists, stack), ListOf(lists, code))
    ensures forall p: nat :: Covered(ListOf(lists, code), p) || Covered(ListOf(lists, stack), p) ==>
              USER_FIRST <= p < USER_LIMIT
  {
    hide Covered;
    assert !Covered([], 0) by { CoverNothing(); }
    CoverNothing();
  }

  lemma CoverNothing()
    ensures forall p: nat :: !Covered([], p)
  {
  }

  lemma ViewEitherWay(m: Mem, es: seq<Extent>, fs: seq<Extent>, low: bool)
    requires View(m, es + fs, low) && Apart(es, fs)
    ensures View(m, fs + es, low)
  {
    hide Walk, Mapped, Covered, LowPage;
    forall p: nat | USER_FIRST <= p < USER_LIMIT
      ensures Mapped(fs + es, p) == Mapped(es + fs, p)
    {
      MappedConcat(es, fs, p);
      MappedConcat(fs, es, p);
      MappedIffCovered(es, p);
      MappedIffCovered(fs, p);
    }
  }

  /** After the exchange user space is the new list with the other workspace. */
  lemma SwapView(s: Snapshot, t: Snapshot, c: Cache, d: Cache, out: seq<Extent>, into: seq<Extent>,
                 other: seq<Extent>, p: nat)
    requires Swapped(s, t, c, d, out, into)
    requires USER_FIRST <= p < USER_LIMIT && (Covered(into, p) || Walk(s.mem, p) == Mapped(out + other, p))
    requires Apart(out, other) && Apart(into, other)
    ensures Walk(t.mem, p) == Mapped(into + other, p) == Mapped(other + into, p)
  {
    hide Walk, Extends, Mapped, Covered, TablesForAll;
    MappedConcat(out, other, p);
    MappedConcat(into, other, p);
    MappedConcat(other, into, p);
    MappedIffCovered(out, p);
    MappedIffCovered(other, p);
    MappedIffCovered(into, p);
  }

  /** ... and nothing is stale: a page of the new list that was cached was mapped, so it is a page
      of the old list, which was flushed. */
  lemma SwapFresh(s: Snapshot, t: Snapshot, c: Cache, d: Cache, out: seq<Extent>, into: seq<Extent>,
                  other: seq<Extent>, low: bool)
    requires Swapped(s, t, c, d, out, into) && c.stale == {} && Fresh(s.mem, c.tlb)
    requires forall p :: p in d.stale ==> !Reserved(p)
    requires View(s.mem, out + other, low) && (low ==> LowUnseen(c.tlb)) && Apart(into, other)
    requires forall p: nat :: Covered(into, p) ==> USER_FIRST <= p < USER_LIMIT
    ensures d.stale == {}
  {
    hide Walk, Extends, Mapped, Covered, TablesForAll, Reserved, View, Fresh, LowUnseen;
    forall p: nat | p in c.tlb && USER_FIRST <= p < USER_LIMIT
      ensures Covered(out, p) || Covered(other, p)
    {
      CachedPageIsMapped(s, c, out, other, low, p);
    }
    assert forall p :: p in d.stale ==> p in c.tlb && Covered(into, p) && !Covered(out, p);
  }

  lemma CachedPageIsMapped(s: Snapshot, c: Cache, es: seq<Extent>, fs: seq<Extent>, low: bool, p: nat)
    requires Fresh(s.mem, c.tlb) && View(s.mem, es + fs, low) && (low ==> LowUnseen(c.tlb))
    requires p in c.tlb && USER_FIRST <= p < USER_LIMIT
    ensures Covered(es, p) || Covered(fs, p)
  {
    hide TableOf, Entry, Mapped, Covered, LowPage;
    assert Walk(s.mem, p) == Some(c.tlb[p]) && Walk(s.mem, p) == Mapped(es + fs, p);
    MappedConcat(es, fs, p);
    MappedIffCovered(es, p);
    MappedIffCovered(fs, p);
  }

  /** Exchanging one of the two workspaces leaves nothing stale, and it keeps user space consistent if and
      only if the missing tables take no frame that somebody owns. */
  lemma SwapConsistent(lists: Lists, stacks: set<Workspace>, owner: map<nat, Owner>, s: Snapshot, t: Snapshot,
                       c: Cache, d: Cache, code: Workspace?, stack: Workspace?, ws: Workspace?, wsi: nat)
    requires Consistent(lists, stacks, owner, s, code, stack) && wsi < 2
    requires c.stale == {} && Fresh(s.mem, c.tlb) && forall p :: p in d.stale ==> !Reserved(p)
    requires Swapped(s, t, c, d, ListOf(lists, if wsi == CODE_DATA_WS then code else stack), ListOf(lists, ws))
    requires wsi == CODE_DATA_WS ==> Seated(lists, stacks, ws, stack)
    requires wsi == STACK_WS ==> Seated(lists, stacks, code, ws)
    requires code == null ==> LowUnseen(c.tlb)
    ensures d.stale == {} && ((if wsi == CODE_DATA_WS then ws else code) == null ==> LowUnseen(d.tlb))
    ensures Finds(s, owner, TablesForAll(ListOf(lists, if wsi == CODE_DATA_WS then code else stack))
                            + TablesForAll(ListOf(lists, ws)))
            <==> Consistent(lists, stacks, owner, t, if wsi == CODE_DATA_WS then ws else code,
                            if wsi == STACK_WS then ws else stack)
  {
    hide Walk, Extends, Hangs, FlagsOf, UserOpen, AllOpen, Mapped, Covered, TablesForAll, Reserved, Owned, InPlace,
      Swapped, AllGood, LowPage, CoverLow, LowUnseen, Finds;
    var out := ListOf(lists, if wsi == CODE_DATA_WS then code else stack);
    var other := ListOf(lists, if wsi == CODE_DATA_WS then stack else code);
    var into := ListOf(lists, ws);
    SwappedExtends(s, t, c, d, out, into);
    SwapOpen(lists, s, t, if wsi == CODE_DATA_WS then code else stack, ws);
    OwnedExtends(lists, owner, s, t, TablesForAll(out) + TablesForAll(into));
    SeatsApart(lists, stacks, code, stack);
    if wsi == CODE_DATA_WS {
      SeatsApart(lists, stacks, ws, stack);
    } else {
      SeatsApart(lists, stacks, code, ws);
      ViewEitherWay(s.mem, other, out, code == null);
    }
    SwapFresh(s, t, c, d, out, into, other, code == null);
    LowAfterSwap(lists, stacks, s, t, c, d, out, into, code, ws, wsi);
    forall p: nat | USER_FIRST <= p < USER_LIMIT && !((if wsi == CODE_DATA_WS then ws else code) == null && LowPage(p))
      ensures Walk(t.mem, p) == Mapped(into + other, p) == Mapped(other + into, p)
    {
      SwapView(s, t, c, d, out, into, other, p);
    }
  }

  /** The first code workspace in place takes the low pages over; taking one out unmaps and flushes
      them. */
  lemma LowAfterSwap(lists: Lists, stacks: set<Workspace>, s: Snapshot, t: Snapshot, c: Cache, d: Cache,
                     out: seq<Extent>, into: seq<Extent>, code: Workspace?, ws: Workspace?, wsi: nat)
    requires Swapped(s, t, c, d, out, into) && CoverLow(lists, stacks) && (code == null ==> LowUnseen(c.tlb))
    requires wsi == CODE_DATA_WS ==> out == ListOf(lists, code) && into == ListOf(lists, ws)
    requires code != null ==> code in lists && code !in stacks
    requires wsi == CODE_DATA_WS && ws != null ==> ws in lists && ws !in stacks
    ensures (if wsi == CODE_DATA_WS then ws else code) == null ==> LowUnseen(d.tlb)
    ensures wsi == CODE_DATA_WS && ws != null ==> forall p: nat :: LowPage(p) ==> Covered(into, p)
  {
    hide Walk, Extends, Mapped, Covered, TablesForAll, Reserved;
    forall p: nat | LowPage(p)
      ensures !Reserved(p)
    {
      LowNotReserved(p);
    }
  }

  lemma LowNotReserved(p: nat)
    requires LowPage(p)
    ensures !Reserved(p)
  {
  }

  lemma SwappedExtends(s: Snapshot, t: Snapshot, c: Cache, d: Cache, out: seq<Extent>, into: seq<Extent>)
    requires Swapped(s, t, c, d, out, into)
    ensures Extends(s, t, TablesForAll(out) + TablesForAll(into)) && Hangs(s, t, FlagsOf(out) + FlagsOf(into))
  {
    hide Extends, Hangs, FlagsOf, Walk;
  }

  lemma SwapOpen(lists: Lists, s: Snapshot, t: Snapshot, out: Workspace?, into: Workspace?)
    requires forall w :: w in lists ==> AllOpen(lists[w])
    requires UserOpen(s) && Hangs(s, t, FlagsOf(ListOf(lists, out)) + FlagsOf(ListOf(lists, into)))
    ensures UserOpen(t)
  {
    hide Hangs, UserOpen, FlagsOf, UserBits;
    assert AllOpen([]);
    FlagsOpen(ListOf(lists, out));
    FlagsOpen(ListOf(lists, into));
    OpenStays(s, t, FlagsOf(ListOf(lists, out)) + FlagsOf(ListOf(lists, into)));
  }

  // ----- a page fault, on values -----

  /** Frames base .. base+n-1 have been handed out by alloc_pages: they were free, they are not any
      more, and nothing else changed hands. */
  ghost predicate HandedOut(s: Snapshot, t: Snapshot, base: nat, n: nat) {
    && t == s.(regions := t.regions)
    && Paged(t.regions) && FreeCount(t.regions) + n == FreeCount(s.regions)
    && base + n <= PHYS_FRAMES
    && (forall f: nat :: FreeFrame(t.regions, f) <==> FreeFrame(s.regions, f) && !(base <= f < base + n))
    && (forall f: nat :: base <= f < base + n ==> FreeFrame(s.regions, f))
  }

  lemma HandOut(s: Snapshot, n: nat)
    requires Sound(s) && 0 < n < 0x10_0000
    ensures var (a, rest) := Allocated(s.regions, n);
            a != 0 ==> HandedOut(s, s.(regions := rest), a / 0x1000, n) && a % 0x1000 == 0
    ensures var (a, rest) := Allocated(s.regions, n); a == 0 ==> rest == s.regions
  {
    hide Walk, Tree, Maps, Allocated, FreeFrame, FreeCount, Paged;
    AllocHandsOutFrames(s.regions, n);
    var (a, rest) := Allocated(s.regions, n);
    assert a != 0 ==> forall f: nat :: a / 0x1000 <= f < a / 0x1000 + n ==> FreeFrame(s.regions, f);
  }

  /** Frames just handed out can be given owners: they had none. */
  lemma HandedOutSound(s: Snapshot, t: Snapshot, base: nat, n: nat, lists: Lists, owner: map<nat, Owner>)
    requires Sound(s) && HandedOut(s, t, base, n) && Owned(lists, owner, s)
    ensures Sound(t) && Owned(lists, owner, t)
    ensures forall f: nat :: base <= f < base + n ==> f !in owner && !IsTable(s.tables, f) && !FreeFrame(t.regions, f)
  {
    hide Walk, Tree, Maps, FreeFrame, FreeCount, Paged;
  }

  /** From s to t frames base .. base+n-1 came at the disposal of workspace w, for its pages from vp on:
      they are neither free nor tables, and nobody else owns one. */
  ghost predicate Granted(owner: map<nat, Owner>, s: Snapshot, t: Snapshot, base: nat, n: nat, w: Workspace, vp: nat) {
    && t == s.(regions := t.regions) && Paged(t.regions) && base + n <= PHYS_FRAMES
    && (forall f :: FreeFrame(t.regions, f) ==> FreeFrame(s.regions, f))
    && (forall f: nat :: base <= f < base + n ==>
          !FreeFrame(t.regions, f) && !IsTable(s.tables, f) && (f in owner ==> owner[f] == Space(w, vp + (f - base))))
  }

  lemma HandedOutGranted(s: Snapshot, t: Snapshot, base: nat, n: nat, lists: Lists, owner: map<nat, Owner>,
                         w: Workspace, vp: nat)
    requires Sound(s) && HandedOut(s, t, base, n) && Owned(lists, owner, s)
    ensures Granted(owner, s, t, base, n, w, vp)
  {
    hide Walk, Tree, Maps, FreeFrame, FreeCount, Paged, IsTable, Owned;
    HandedOutSound(s, t, base, n, lists, owner);
  }

  lemma GrantedSound(owner: map<nat, Owner>, s: Snapshot, t: Snapshot, base: nat, n: nat, w: Workspace, vp: nat,
                     lists: Lists)
    requires Sound(s) && Granted(owner, s, t, base, n, w, vp) && Owned(lists, owner, s)
    ensures Sound(t) && Owned(lists, owner, t)
    ensures KeepsOwners(owner, OwnedRun(owner, w, vp, base, n))
    ensures t.tables == s.tables && t.mem == s.mem
  {
    hide Walk, Tree, Maps, FreeFrame, FreeCount, Paged, IsTable;
  }

  /** An extent over such frames, on pages the workspace has nothing on, is taken into the lists. */
  lemma OwnMore(lists: Lists, owner: map<nat, Owner>, s: Snapshot, w: Workspace, e: Extent, owner': map<nat, Owner>)
    requires Owned(lists, owner, s) && w in lists && lists[w] != []
    requires forall f :: f in owner ==> f in owner' && owner'[f] == owner[f]
    requires forall p: nat :: e.Covers(p) ==> e.FrameFor(p) in owner' && owner'[e.FrameFor(p)] == Space(w, p)
    requires forall f :: f in owner' && f !in owner ==>
               f < PHYS_FRAMES && !FreeFrame(s.regions, f) && !IsTable(s.tables, f)
    ensures Owned(lists[w := Added(lists[w], e)], owner', s)
  {
    hide FreeFrame, IsTable;
    var lists': Lists := lists[w := Added(lists[w], e)];
    forall v: Workspace, i: nat, p: nat | v in lists' && 0 <= i < |lists'[v]| && lists'[v][i].Covers(p)
      ensures lists'[v][i].FrameFor(p) in owner' && owner'[lists'[v][i].FrameFor(p)] == Space(v, p)
    {
      if v == w && i == |lists'[w]| - 1 {
        assert lists'[w][i] == e;
      } else {
        assert lists'[v][i] == lists[v][i];
        assert lists[v][i].FrameFor(p) in owner;
      }
    }
  }

  ghost predicate InRun(f: nat, base: nat, n: nat) {
    base <= f < base + n
  }

  /** The owners once n pages from vp on are backed by the frames from base on. */
  ghost function OwnedRun(owner: map<nat, Owner>, w: Workspace, vp: nat, base: nat, n: nat): map<nat, Owner> {
    owner + map f: nat | base <= f < base + n && InRun(f, base, n) :: Space(w, vp + (f - base))
  }

  lemma ExtentFrames(e: Extent, owner: map<nat, Owner>, w: Workspace, p: nat)
    requires e.Covers(p)
    ensures var o := OwnedRun(owner, w, e.First(), e.pbase / 0x1000, e.Count());
            e.FrameFor(p) in o && o[e.FrameFor(p)] == Space(w, p)
  {
  }

  lemma OwnRun(lists: Lists, owner: map<nat, Owner>, s: Snapshot, t: Snapshot, w: Workspace, e: Extent)
    requires Sound(s) && Granted(owner, s, t, e.pbase / 0x1000, e.Count(), w, e.First()) && Owned(lists, owner, s)
    requires w in lists && lists[w] != []
    ensures Owned(lists[w := Added(lists[w], e)], OwnedRun(owner, w, e.First(), e.pbase / 0x1000, e.Count()), t)
  {
    hide Sound, FreeFrame, IsTable, Owned, Extent.Count, Extent.First, Extent.FrameFor, Paged;
    var base, n := e.pbase / 0x1000, e.Count();
    var owner' := OwnedRun(owner, w, e.First(), base, n);
    GrantedSound(owner, s, t, base, n, w, e.First(), lists);
    forall p: nat | e.Covers(p)
      ensures e.FrameFor(p) in owner' && owner'[e.FrameFor(p)] == Space(w, p)
    {
      ExtentFrames(e, owner, w, p);
    }
    OwnMore(lists, owner, t, w, e, owner');
  }

  lemma HandedOutBound(s: Snapshot, t: Snapshot, base: nat, n: nat)
    requires HandedOut(s, t, base, n)
    ensures base + n <= PHYS_FRAMES && t.tables == s.tables && t.mem == s.mem
  {
  }

  /** Adding an extent to one seen workspace, in its own part of user space, maps its pages there. */
  lemma SeeMore(lists: Lists, stacks: set<Workspace>, code: Workspace?, stack: Workspace?,
                w: Workspace, e: Extent, p: nat)
    requires Seated(lists, stacks, code, stack) && InPlace(lists, stacks) && w in lists && lists[w] != []
    requires w == code || w == stack
    requires e.Covers(p) ==> (w in stacks <==> p > SPLIT_PAGE)
    ensures var lists' := lists[w := Added(lists[w], e)];
            Mapped(ListOf(lists', code) + ListOf(lists', stack), p)
            == if e.Covers(p) then Some(e.EntryFor(p)) else Mapped(ListOf(lists, code) + ListOf(lists, stack), p)
  {
    hide Mapped, Covered;
    var lists': Lists := lists[w := Added(lists[w], e)];
    AddedMaps(lists[w], e, p);
    MappedConcat(ListOf(lists, code), ListOf(lists, stack), p);
    MappedConcat(ListOf(lists', code), ListOf(lists', stack), p);
    MappedIffCovered(ListOf(lists, stack), p);
    CoverNothing();
    assert Covered(ListOf(lists, stack), p) ==> p > SPLIT_PAGE;
  }

  lemma PlaceMore(lists: Lists, stacks: set<Workspace>, w: Workspace, e: Extent)
    requires InPlace(lists, stacks) && w in lists && lists[w] != []
    requires forall p: nat :: e.Covers(p) ==> USER_FIRST <= p < USER_LIMIT && (w in stacks <==> p > SPLIT_PAGE)
    ensures InPlace(lists[w := Added(lists[w], e)], stacks)
    ensures CoverLow(lists, stacks) ==> CoverLow(lists[w := Added(lists[w], e)], stacks)
  {
    hide Covered, Mapped, LowPage;
    var lists': Lists := lists[w := Added(lists[w], e)];
    forall p: nat
      ensures Covered(lists[w], p) ==> Covered(lists'[w], p)
    {
      AddedMaps(lists[w], e, p);
      MappedIffCovered(lists'[w], p);
      MappedIffCovered(lists[w], p);
    }
    forall v: Workspace, p: nat | v in lists' && Covered(lists'[v], p)
      ensures USER_FIRST <= p < USER_LIMIT && (v in stacks <==> p > SPLIT_PAGE)
    {
      if v == w {
        AddedMaps(lists[w], e, p);
        MappedIffCovered(lists'[w], p);
        MappedIffCovered(lists[w], p);
      }
    }
  }

  lemma StaysUnseen(tlb: map<nat, nat>, tlb': map<nat, nat>)
    requires LowUnseen(tlb) && CachedFrom(tlb, tlb')
    ensures LowUnseen(tlb')
  {
    forall p: nat | LowPage(p)
      ensures p !in tlb'
    {
      LowNotReserved(p);
    }
  }

  lemma NothingStale(c: Cache, d: Cache, m: Mem, vp: nat, n: nat)
    requires c.stale == {} && Fresh(m, c.tlb) && d.stale == c.stale + CachedRun(c.tlb, vp, n)
    requires forall p: nat :: vp <= p < vp + n ==> Walk(m, p) == None
    ensures d.stale == {}
  {
    hide TableOf, Entry;
  }

  /** Backing absent pages of a seen workspace with frames that nobody else has leaves nothing stale, and
      it keeps user space consistent if and only if the missing tables take no frame that has an owner by
      then. */
  lemma FaultConsistent(lists: Lists, stacks: set<Workspace>, owner: map<nat, Owner>, s: Snapshot, s1: Snapshot,
                        t: Snapshot, c: Cache, d: Cache, code: Workspace?, stack: Workspace?, w: Workspace, e: Extent)
    requires Sound(s) && Consistent(lists, stacks, owner, s, code, stack) && (w == code || w == stack)
    requires e.Good() && UserBits(e.flags) && Granted(owner, s, s1, e.pbase / 0x1000, e.Count(), w, e.First())
    requires forall p: nat :: e.Covers(p) ==> (w in stacks <==> p > SPLIT_PAGE) && Walk(s.mem, p) == None
    requires RunMapped(s1, t, c, d, e.First(), e.Count(), FirstEntry(e.pbase, e.flags))
    requires c.stale == {} && Fresh(s.mem, c.tlb) && (code == null ==> LowUnseen(c.tlb))
    ensures d.stale == {} && (code == null ==> LowUnseen(d.tlb))
    ensures var owner' := OwnedRun(owner, w, e.First(), e.pbase / 0x1000, e.Count());
            Consistent(lists[w := Added(lists[w], e)], stacks, owner', t, code, stack)
            <==> Finds(s1, owner', TablesForRange(e.First(), e.Count()))
  {
    hide Walk, Sound, Granted, Extends, Hangs, UserOpen, UserBits, Mapped, Covered, Owned, InPlace, OwnedRun,
      TablesForRange, Fresh, LowPage, CoverLow, LowUnseen, Finds;
    OwnRun(lists, owner, s, s1, w, e);
    GrantedSound(owner, s, s1, e.pbase / 0x1000, e.Count(), w, e.First(), lists);
    FaultOpen(s, s1, t, e);
    AddedOpen(lists[w], e);
    OwnedExtends(lists[w := Added(lists[w], e)], OwnedRun(owner, w, e.First(), e.pbase / 0x1000, e.Count()), s1, t,
                 TablesForRange(e.First(), e.Count()));
    PlaceMore(lists, stacks, w, e);
    FaultView(lists, stacks, s.mem, t.mem, c, d, code, stack, w, e);
  }

  lemma FaultOpen(s: Snapshot, s1: Snapshot, t: Snapshot, e: Extent)
    requires UserOpen(s) && s1.mem == s.mem && s1.tables == s.tables && e.flags < 0x1000 && UserBits(e.flags)
    requires Hangs(s1, t, {FirstEntry(e.pbase, e.flags) % 0x1000})
    ensures UserOpen(t)
  {
    hide Entry, UserBits, InUserHalf, Hangs;
    LowBits(e.pbase / 0x1000 * 0x1000, e.flags);
    OpenRegions(s, s1);
    OpenStays(s1, t, {FirstEntry(e.pbase, e.flags) % 0x1000});
  }

  lemma AddedOpen(es: seq<Extent>, e: Extent)
    requires es != [] && AllOpen(es) && UserBits(e.flags)
    ensures AllOpen(Added(es, e))
  {
    hide UserBits;
  }

  /** Whatever the frames, user space is the new lists afterwards and nothing is stale. */
  lemma FaultView(lists: Lists, stacks: set<Workspace>, m: Mem, m': Mem, c: Cache, d: Cache,
                  code: Workspace?, stack: Workspace?, w: Workspace, e: Extent)
    requires InPlace(lists, stacks) && Seated(lists, stacks, code, stack) && (w == code || w == stack)
    requires w in lists && lists[w] != [] && View(m, ListOf(lists, code) + ListOf(lists, stack), code == null)
    requires forall p: nat :: e.Covers(p) ==> (w in stacks <==> p > SPLIT_PAGE) && Walk(m, p) == None
    requires MapsRun(m, m', e.First(), e.Count(), FirstEntry(e.pbase, e.flags)) && CachedFrom(c.tlb, d.tlb)
    requires d.stale == c.stale + CachedRun(c.tlb, e.First(), e.Count())
    requires c.stale == {} && Fresh(m, c.tlb) && (code == null ==> LowUnseen(c.tlb))
    ensures d.stale == {} && (code == null ==> LowUnseen(d.tlb))
    ensures var lists' := lists[w := Added(lists[w], e)];
            View(m', ListOf(lists', code) + ListOf(lists', stack), code == null)
  {
    hide Walk, Mapped, Covered, InPlace, Fresh, LowPage, LowUnseen;
    NothingStale(c, d, m, e.First(), e.Count());
    if code == null { StaysUnseen(c.tlb, d.tlb); }
    var lists': Lists := lists[w := Added(lists[w], e)];
    forall p: nat | USER_FIRST <= p < USER_LIMIT && !(code == null && LowPage(p))
      ensures Walk(m', p) == Mapped(ListOf(lists', code) + ListOf(lists', stack), p)
    {
      SeeMore(lists, stacks, code, stack, w, e, p);
    }
  }

  /** A page of a list that is in place is in user space, and not a low page left by the boot code. */
  lemma SeenPage(lists: Lists, stacks: set<Workspace>, code: Workspace?, stack: Workspace?, p: nat)
    requires InPlace(lists, stacks) && Seated(lists, stacks, code, stack)
    requires Covered(ListOf(lists, code), p) || Covered(ListOf(lists, stack), p)
    ensures USER_FIRST <= p < USER_LIMIT && !(code == null && LowPage(p))
  {
    hide Covered;
    CoverNothing();
  }

  /** The seen pages of a consistent state have their tables already, so an exchange needs room
      for the tables of the new list only. */
  lemma SeenHaveTables(lists: Lists, stacks: set<Workspace>, owner: map<nat, Owner>, s: Snapshot,
                       code: Workspace?, stack: Workspace?, w: Workspace?)
    requires Sound(s) && Consistent(lists, stacks, owner, s, code, stack) && (w == code || w == stack)
    ensures TablesForAll(ListOf(lists, w)) <= s.tables.Keys
  {
    hide Sound, Owned, TableOf, Entry, TablesForAll, Mapped, Covered, LowPage, CoverLow;
    var es := ListOf(lists, w);
    CoverNothing();
    forall p: nat | Covered(es, p)
      ensures Translates(s, p)
    {
      MappedConcat(ListOf(lists, code), ListOf(lists, stack), p);
      MappedIffCovered(ListOf(lists, code), p);
      MappedIffCovered(ListOf(lists, stack), p);
      SeenPage(lists, stacks, code, stack, p);
    }
    MappedHaveTables(s, es);
  }

  lemma SwapAffords(s: Snapshot, out: set<Key>, into: set<Key>)
    requires out <= s.tables.Keys && Affords(s, into)
    ensures Affords(s, out) && Affords(s, out + into)
  {
    assert s.tables.Keys + out == s.tables.Keys;
    assert s.tables.Keys + (out + into) == s.tables.Keys + into;
    CardSubset(s.tables.Keys, s.tables.Keys + into);
  }

  lemma FindsByNew(s: Snapshot, owner: map<nat, Owner>, out: set<Key>, into: set<Key>)
    requires out <= s.tables.Keys
    ensures Finds(s, owner, out + into) <==> Finds(s, owner, into)
  {
    hide FreeCount, IsTable;
    assert s.tables.Keys + (out + into) == s.tables.Keys + into;
  }

  lemma ExtendsByNew(s: Snapshot, t: Snapshot, out: set<Key>, into: set<Key>)
    requires Extends(s, t, out + into) && out <= s.tables.Keys
    ensures Extends(s, t, into)
  {
    hide FreeFrame, FreeButTables, OthersKept, NewTablesWereFree, FreeCount;
    assert s.tables.Keys + (out + into) == s.tables.Keys + into;
  }

  // ----- the frames that a fault finds -----

  /** What alloc_pages(1) comes to: a free frame, or frame 0 if there is none. */
  ghost predicate PageGiven(s: Snapshot, t: Snapshot, a: nat) {
    && t == s.(regions := t.regions) && Paged(t.regions) && a % 0x1000 == 0 && a / 0x1000 < PHYS_FRAMES
    && FreeCount(t.regions) == (if FreeCount(s.regions) > 0 then FreeCount(s.regions) - 1 else 0)
    && (if FreeCount(s.regions) > 0 then FreeFrame(s.regions, a / 0x1000) else a == 0)
    && !FreeFrame(s.regions, 0)
    && (forall f: nat :: FreeFrame(t.regions, f) <==> FreeFrame(s.regions, f) && f != a / 0x1000)
  }

  lemma PageIsGiven(s: Snapshot)
    requires Sound(s)
    ensures PageGiven(s, s.(regions := Allocated(s.regions, 1).1), Allocated(s.regions, 1).0)
  {
    hide Walk, Tree, Maps, Allocated, FreeFrame, FreeCount, Paged, FrameOf, Present;
    GivenFrame(s, 1);
    AllocHandsOutFrames(s.regions, 1);
  }

  /** Frame f is no table, and nobody but `who` owns it. */
  ghost predicate Claimable(owner: map<nat, Owner>, s: Snapshot, f: nat, who: Owner) {
    !IsTable(s.tables, f) && (f in owner ==> owner[f] == who)
  }

  ghost function Claimed(owner: map<nat, Owner>, s: Snapshot, f: nat, who: Owner): map<nat, Owner> {
    if Claimable(owner, s, f, who) then owner[f := who] else owner
  }

  /** A fault on page vp finds frames that `who` can have: for the page and for the tables that it lacks
      there are free ones; or there is one too few, and frame 0, used for the last of them, holds no
      table and is nobody else's. */
  ghost predicate Serves(s: Snapshot, owner: map<nat, Owner>, vp: nat, who: Owner) {
    var frames := |s.tables.Keys + TablesFor(vp)| + 1;
    || frames <= FreeCount(s.regions) + |s.tables|
    || (&& frames == FreeCount(s.regions) + |s.tables| + 1 && !IsTable(s.tables, 0)
        && (0 in owner ==> FreeCount(s.regions) == 0 && owner[0] == who))
  }

  /** For a page that lacks no table: a free frame, or frame 0.  With a table missing too, frame 0 alone does
      not do. */
  lemma ServesMeans(s: Snapshot, owner: map<nat, Owner>, vp: nat, who: Owner)
    ensures TablesFor(vp) <= s.tables.Keys ==>
              (Serves(s, owner, vp, who) <==> FreeCount(s.regions) > 0 || Claimable(owner, s, 0, who))
    ensures !(TablesFor(vp) <= s.tables.Keys) && FreeCount(s.regions) == 0 ==> !Serves(s, owner, vp, who)
  {
    hide FreeCount, IsTable, TablesFor;
    var all := s.tables.Keys + TablesFor(vp);
    assert |s.tables| == |s.tables.Keys|;
    if TablesFor(vp) <= s.tables.Keys {
      assert all == s.tables.Keys;
    } else {
      assert all == s.tables.Keys + (all - s.tables.Keys);
    }
  }

  lemma FreeIsClaimable(lists: Lists, owner: map<nat, Owner>, s: Snapshot, f: nat, who: Owner)
    requires Sound(s) && Owned(lists, owner, s) && FreeFrame(s.regions, f)
    ensures Claimable(owner, s, f, who) && f !in owner
  {
    hide Walk, Tree, Maps, FreeFrame, Paged;
  }

  lemma ServesIff(lists: Lists, owner: map<nat, Owner>, s: Snapshot, s1: Snapshot, a: nat, vp: nat, who: Owner)
    requires Sound(s) && Owned(lists, owner, s) && PageGiven(s, s1, a)
    ensures Serves(s, owner, vp, who)
            <==> Claimable(owner, s, a / 0x1000, who) && Finds(s1, owner[a / 0x1000 := who], TablesFor(vp))
  {
    hide Sound, Owned, FreeFrame, FreeCount, Paged, IsTable, TablesFor;
    if FreeCount(s.regions) > 0 { FreeIsClaimable(lists, owner, s, a / 0x1000, who); }
    CardSubset(s.tables.Keys, s.tables.Keys + TablesFor(vp));
    assert |s.tables| == |s.tables.Keys|;
  }

  lemma GivenIsGranted(lists: Lists, owner: map<nat, Owner>, s: Snapshot, s1: Snapshot, a: nat, w: Workspace, vp: nat)
    requires Sound(s) && Owned(lists, owner, s) && PageGiven(s, s1, a)
    requires Claimable(owner, s, a / 0x1000, Space(w, vp))
    ensures Granted(owner, s, s1, a / 0x1000, 1, w, vp)
  {
    hide Sound, FreeFrame, FreeCount, Paged, IsTable;
  }

  // ----- a new workspace, and stores to memory, on values -----

  /** A workspace just made of fresh frames joins the lists; nothing that is seen changes. */
  lemma NewSpaceConsistent(lists: Lists, stacks: set<Workspace>, owner: map<nat, Owner>, s: Snapshot, s1: Snapshot,
                           code: Workspace?, stack: Workspace?, w: Workspace, e: Extent, isStack: bool)
    requires Sound(s) && Consistent(lists, stacks, owner, s, code, stack)
    requires w !in lists && w !in stacks && e.Good() && HandedOut(s, s1, e.pbase / 0x1000, e.Count())
    requires UserBits(e.flags)
    requires forall p: nat :: e.Covers(p) ==> (isStack <==> p > SPLIT_PAGE)
    requires !isStack ==> forall p: nat :: LowPage(p) ==> e.Covers(p)
    ensures Sound(s1)
    ensures Consistent(lists[w := [e]], if isStack then stacks + {w} else stacks,
                       OwnedRun(owner, w, e.First(), e.pbase / 0x1000, e.Count()), s1, code, stack)
    ensures KeepsOwners(owner, OwnedRun(owner, w, e.First(), e.pbase / 0x1000, e.Count()))
  {
    hide Walk, Sound, HandedOut, Granted, Mapped, Covered, Owned, OwnedRun, View, AllGood, LowPage, Extent.Covers,
      Extent.Count, Extent.First, InPlace, CoverLow, Seated, ListOf, KeepsOwners, Extent.Good, AllOpen, UserOpen,
      UserBits;
    SeatsStay(lists, stacks, code, stack, w, [e], isStack);
    var empty := Extent(0, 0, 0, 0);
    var lists1: Lists := lists[w := [empty]];
    var stacks' := if isStack then stacks + {w} else stacks;
    HandedOutBound(s, s1, e.pbase / 0x1000, e.Count());
    EmptyList(lists, owner, s, w);
    assert Added(lists1[w], e) == [e];
    assert lists1[w := [e]] == lists[w := [e]];
    HandedOutGranted(s, s1, e.pbase / 0x1000, e.Count(), lists1, owner, w, e.First());
    GrantedSound(owner, s, s1, e.pbase / 0x1000, e.Count(), w, e.First(), lists1);
    OwnRun(lists1, owner, s, s1, w, e);
    OneExtentPlaced(lists, stacks, w, e, isStack);
    assert AllGood([e]) && AllOpen([e]) by { OneGood(e); }
    OpenRegions(s, s1);
  }

  lemma SeatsStay(lists: Lists, stacks: set<Workspace>, code: Workspace?, stack: Workspace?, w: Workspace,
                  es: seq<Extent>, isStack: bool)
    requires Seated(lists, stacks, code, stack) && w !in lists && w !in stacks
    ensures Seated(lists[w := es], if isStack then stacks + {w} else stacks, code, stack)
    ensures ListOf(lists[w := es], code) == ListOf(lists, code) && ListOf(lists[w := es], stack) == ListOf(lists, stack)
  {
  }

  ghost predicate KeepsOwners(owner: map<nat, Owner>, owner': map<nat, Owner>) {
    forall f :: f in owner ==> f in owner' && owner'[f] == owner[f]
  }

  lemma OneGood(e: Extent)
    requires e.Good() && UserBits(e.flags)
    ensures AllGood([e]) && AllOpen([e])
  {
  }

  lemma OpenRegions(s: Snapshot, t: Snapshot)
    requires UserOpen(s) && t.mem == s.mem && t.tables == s.tables
    ensures UserOpen(t)
  {
    hide Entry, UserBits, InUserHalf;
  }

  lemma EmptyList(lists: Lists, owner: map<nat, Owner>, s: Snapshot, w: Workspace)
    requires Owned(lists, owner, s) && w !in lists
    ensures Owned(lists[w := [Extent(0, 0, 0, 0)]], owner, s)
  {
    hide FreeFrame, IsTable;
  }

  lemma OneExtentPlaced(lists: Lists, stacks: set<Workspace>, w: Workspace, e: Extent, isStack: bool)
    requires InPlace(lists, stacks) && w !in lists && w !in stacks && e.Good()
    requires forall p: nat :: e.Covers(p) ==> (isStack <==> p > SPLIT_PAGE)
    requires CoverLow(lists, stacks) && (!isStack ==> forall p: nat :: LowPage(p) ==> e.Covers(p))
    ensures InPlace(lists[w := [e]], if isStack then stacks + {w} else stacks)
    ensures CoverLow(lists[w := [e]], if isStack then stacks + {w} else stacks)
  {
    hide Extent.Good, Extent.Covers, LowPage;
    forall p: nat
      ensures Covered([e], p) <==> e.Covers(p)
    {
      OneCovers(e, p);
    }
    var lists': Lists := lists[w := [e]];
    forall v: Workspace, p: nat | v in lists' && Covered(lists'[v], p)
      ensures USER_FIRST <= p < USER_LIMIT
      ensures v in (if isStack then stacks + {w} else stacks) <==> p > SPLIT_PAGE
    {
      if v == w {
        assert e.Covers(p);
        GoodCovers(e, p);
      }
    }
  }

  lemma OneCovers(e: Extent, p: nat)
    ensures Covered([e], p) <==> e.Covers(p)
  {
    assert [e][0] == e;
  }

  lemma GoodCovers(e: Extent, p: nat)
    requires e.Good() && e.Covers(p)
    ensures USER_FIRST <= p < USER_LIMIT
  {
  }

  /** Consistency is about translations and ownership: stores that retranslate at most the
      scratch page, and leave the entries that tables hang from, keep it. */
  lemma StoresKeepConsistent(lists: Lists, stacks: set<Workspace>, owner: map<nat, Owner>, s: Snapshot, m: Mem,
                             code: Workspace?, stack: Workspace?)
    requires Consistent(lists, stacks, owner, s, code, stack) && SameWalks(s.mem, m) && Hangs(s, s.(mem := m), {})
    ensures Consistent(lists, stacks, owner, s.(mem := m), code, stack)
  {
    OpenStays(s, s.(mem := m), {});
    hide UserOpen, AllOpen, Hangs, TableOf, Entry, Mapped, FreeFrame, IsTable, InPlace, Covered, LowPage, CoverLow;
  }
}
