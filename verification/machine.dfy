/** The machine as a whole, on values: what one step may do, and what every run keeps. */
module Machines {
  import opened Bytes
  import opened Options
  import opened PageTables
  import opened PageManager
  import opened FrameSupply
  import opened PagingUnit
  import opened Workspaces
  import opened Paging
  import opened SpaceSwitch
  import opened AddressSpaces
  import opened Loader
  import opened PagerState
  import opened ProcessImages
  import opened UserViews
  import opened Scheduler
  import opened RunQueues

  /** Memory, TLB, workspaces, owners and threads between two steps. */
  datatype Machine = Machine(lists: Lists, stacks: set<Workspace>, owner: map<nat, Owner>, snap: Snapshot,
                             tlb: map<nat, nat>, code: Workspace?, stack: Workspace?,
                             sched: Sched<Thread>, saved: map<Thread, nat>)

  /** A thread's two workspaces are a code space and a stack space of the machine. */
  ghost predicate Housed(t: Thread, spaces: set<Workspace>, stacks: set<Workspace>) {
    t.proc.codeWs in spaces && t.proc.codeWs !in stacks && t.stackWs in spaces && t.stackWs in stacks
  }

  /** Every thread is housed, and no two share a stack. */
  ghost predicate AllHoused(ring: seq<Thread>, spaces: set<Workspace>, stacks: set<Workspace>) {
    && (forall t :: t in ring ==> Housed(t, spaces, stacks))
    && (forall t, u :: t in ring && u in ring && t.stackWs == u.stackWs ==> t == u)
  }

  /** The workspaces in place are those of the running thread. */
  ghost predicate InCharge(current: Option<Thread>, code: Workspace?, stack: Workspace?) {
    match current
    case None => code == null && stack == null
    case Some(t) => code == t.proc.codeWs && stack == t.stackWs
  }

  /** User space is what the two workspaces in place say, no translation is stale, the frames that are
      free, the page tables and the owned frames are apart, every owned frame has one owner, and the
      thread ring is whole. */
  ghost predicate Good(m: Machine) {
    && Sound(m.snap)
    && Consistent(m.lists, m.stacks, m.owner, m.snap, m.code, m.stack)
    && Fresh(m.snap.mem, m.tlb)
    && Whole(m.sched) && AllHoused(m.sched.ring, m.lists.Keys, m.stacks)
    && InCharge(m.sched.current, m.code, m.stack)
  }

  datatype Action =
    | Interrupt(rsp: nat, locked: bool, next: Option<nat>)
    | Fault(vp: nat, a: nat)
    | Write(va: nat, b: Byte)
    | Enter(t: Thread, readyByte: bool)
    | Quiet

  ghost function Resaved(saved: map<Thread, nat>, current: Option<Thread>, rsp: nat): map<Thread, nat> {
    match current
    case None => saved
    case Some(t) => saved[t := rsp]
  }

  /** What a switch does to the saved stack pointers, and where it resumes. */
  ghost predicate Resumed(s: Sched<Thread>, locked: bool, was: map<Thread, nat>, now: map<Thread, nat>,
                          rsp: nat, next: Option<nat>)
  {
    var k := FirstReady(s.ring, s.ready);
    if locked || k == |s.ring| then now == was && next == None
    else
      && now == Resaved(was, s.current, rsp)
      && s.ring[k] in was && next == Some(was[s.ring[k]])
  }

  /** Workspaces and owners may have been added; lists and owned frames are as they were. */
  ghost predicate Grew(m: Machine, m': Machine) {
    && (forall w :: w in m.lists ==> w in m'.lists && m'.lists[w] == m.lists[w])
    && KeepsOwners(m.owner, m'.owner) && OwnedKept(m.owner, m.snap, m'.snap)
  }

  /** The absent page vp was given the frame at address a; in user space it joined a workspace in place. */
  ghost predicate FaultServed(m: Machine, m': Machine, vp: nat, a: nat) {
    && Walk(m.snap.mem, vp) == None
    && KeepsOwners(m.owner, m'.owner) && OwnedKept(m.owner, m.snap, m'.snap)
    && (vp >= USER_LIMIT ==> m'.lists == m.lists)
    && (vp < USER_LIMIT ==>
          var w := if vp <= SPLIT_PAGE then m.code else m.stack;
          USER_FIRST <= vp && w != null && w in m.lists && m.lists[w] != []
          && m'.lists == m.lists[w := Added(m.lists[w], FaultExtent(vp, a))])
  }

  ghost predicate SameThreads(m: Machine, m': Machine) {
    m'.sched == m.sched && m'.saved == m.saved
  }

  ghost predicate Does(m: Machine, act: Action, m': Machine) {
    match act
    case Interrupt(rsp, locked, next) =>
      && Grew(m, m') && m'.sched == (if locked then m.sched else Tick(m.sched))
      && Resumed(m.sched, locked, m.saved, m'.saved, rsp, next)
    case Fault(vp, a) => FaultServed(m, m', vp, a) && SameThreads(m, m')
    case Write(va, b) =>
      && m'.lists == m.lists && m'.owner == m.owner && SameThreads(m, m')
      && UserMay(m.snap.mem, PageNo(va)) && AccessByte(m', va) == Some(b)
      && OthersUntouched(m.owner, m.snap, m'.snap, m.code, m.stack, PageNo(va))
    case Enter(t, readyByte) =>
      && Grew(m, m') && t !in m.sched.ring && m'.sched == Spawn(m.sched, t, readyByte)
      && m'.saved == m.saved[t := FIRST_RSP]
    case Quiet => Grew(m, m') && SameThreads(m, m')
  }

  ghost predicate Stepped(m: Machine, act: Action, m': Machine) {
    Good(m) && Good(m') && Does(m, act, m')
  }

  ghost predicate Runs(ms: seq<Machine>, acts: seq<Action>) {
    && |ms| == |acts| + 1
    && forall i :: 0 <= i < |acts| ==> Stepped(ms[i], acts[i], ms[i + 1])
  }

  // ----- what an access reads -----

  /** The entry an access to page p goes through: the cached one if there is one. */
  ghost function SeenEntry(m: Machine, p: nat): Option<nat> {
    if p in m.tlb then Some(m.tlb[p]) else Walk(m.snap.mem, p)
  }

  /** The page behind a program's access to page p; none if the entries on its path deny it to programs. */
  ghost function AccessPage(m: Machine, p: nat): Option<Page> {
    match if UserMay(m.snap.mem, p) then SeenEntry(m, p) else None
    case None => None
    case Some(e) => Some(PageAt(m.snap.mem, FrameOf(e)))
  }

  ghost function AccessByte(m: Machine, va: nat): Option<Byte> {
    match AccessPage(m, PageNo(va))
    case None => None
    case Some(page) => Some(page[InPage(va)])
  }

  ghost function AccessWord(m: Machine, va: nat): Option<nat> {
    match AccessPage(m, PageNo(va))
    case None => None
    case Some(page) => Some(WordOf(page, WordNo(va)))
  }

  ghost function WordOf(page: Page, i: nat): nat
    requires i < 512
  {
    FromLe(page[8 * i..8 * i + 8])
  }

  /** The page that the list es has at page p. */
  ghost function PageBehind(m: Mem, es: seq<Extent>, p: nat): Option<Page> {
    match Mapped(es, p)
    case None => None
    case Some(e) => Some(PageAt(m, FrameOf(e)))
  }

  /** What a workspace in place holds is what accesses get, whatever the TLB holds. */
  lemma InPlaceIsSeen(m: Machine, w: Workspace, p: nat)
    requires Good(m) && (w == m.code || w == m.stack)
    requires PageBehind(m.snap.mem, ListOf(m.lists, w), p).Some?
    ensures AccessPage(m, p) == PageBehind(m.snap.mem, ListOf(m.lists, w), p)
  {
    hide UserMay, Sound, Walk, Mapped, PageAt, FrameOf, Owned, AllGood, Covered, LowPage, CoverLow, AllHoused, InCharge,
      Whole, UserOpen, AllOpen;
    var code, stack := ListOf(m.lists, m.code), ListOf(m.lists, m.stack);
    SeatsApart(m.lists, m.stacks, m.code, m.stack);
    MappedConcat(code, stack, p);
    MappedIffCovered(code, p);
    MappedIffCovered(stack, p);
    SeenPage(m.lists, m.stacks, m.code, m.stack, p);
    ProgramMayIff(m.lists, m.stacks, m.owner, m.snap, m.code, m.stack, p);
  }

  // ----- isolation over runs -----

  /** What workspace w holds is there unchanged. */
  ghost predicate Keeps(m: Machine, m': Machine, w: Workspace) {
    && w in m.lists && w in m'.lists
    && forall p: nat :: PageBehind(m.snap.mem, m.lists[w], p).Some? ==>
         PageBehind(m'.snap.mem, m'.lists[w], p) == PageBehind(m.snap.mem, m.lists[w], p)
  }

  /** A frame behind a page of workspace w keeps its bytes if w's frames do. */
  lemma FrameBehindKept(m: Machine, mem: Mem, w: Workspace, p: nat)
    requires Good(m) && w in m.lists && PageBehind(m.snap.mem, m.lists[w], p).Some?
    requires FramesOfKept(m.owner, m.snap.mem, mem, w)
    ensures PageBehind(mem, m.lists[w], p) == PageBehind(m.snap.mem, m.lists[w], p)
  {
    hide Sound, Walk, Mapped, PageAt, FrameOf, Owned, AllGood, View, InPlace, CoverLow, Seated, AllHoused, InCharge,
      Whole,
      Fresh;
    ByteOwned(m.lists, m.owner, m.snap, w, p);
  }

  lemma GrewKeeps(m: Machine, m': Machine, w: Workspace)
    requires Good(m) && Grew(m, m') && w in m.lists
    ensures Keeps(m, m', w)
  {
    hide Good, PageBehind, PageAt;
    forall p: nat | PageBehind(m.snap.mem, m.lists[w], p).Some?
      ensures PageBehind(m'.snap.mem, m'.lists[w], p) == PageBehind(m.snap.mem, m.lists[w], p)
    {
      FrameBehindKept(m, m'.snap.mem, w, p);
    }
  }

  /** A fault adds a page that was absent, so it hides nothing of a workspace in place. */
  lemma FaultKeeps(m: Machine, m': Machine, vp: nat, a: nat, w: Workspace)
    requires Good(m) && FaultServed(m, m', vp, a) && w in m.lists
    ensures Keeps(m, m', w)
  {
    hide Good, PageAt, Mapped, FrameOf, Walk, Added;
    forall p: nat | PageBehind(m.snap.mem, m.lists[w], p).Some?
      ensures PageBehind(m'.snap.mem, m'.lists[w], p) == PageBehind(m.snap.mem, m.lists[w], p)
    {
      FrameBehindKept(m, m'.snap.mem, w, p);
      if m'.lists[w] != m.lists[w] {
        AddedMaps(m.lists[w], FaultExtent(vp, a), p);
        FaultExtentCovers(vp, a, p);
        if p == vp { BehindIsWalked(m, w, p); }
      }
    }
  }

  lemma FaultExtentCovers(vp: nat, a: nat, p: nat)
    ensures FaultExtent(vp, a).Covers(p) <==> p == vp
  {
  }

  lemma BehindIsWalked(m: Machine, w: Workspace, p: nat)
    requires Good(m) && (w == m.code || w == m.stack) && w in m.lists
    requires Mapped(m.lists[w], p).Some?
    ensures Walk(m.snap.mem, p).Some?
  {
    hide Sound, Walk, Mapped, Owned, AllGood, Covered, LowPage, CoverLow, AllHoused, InCharge, Whole;
    var code, stack := ListOf(m.lists, m.code), ListOf(m.lists, m.stack);
    MappedConcat(code, stack, p);
    MappedIffCovered(code, p);
    MappedIffCovered(stack, p);
    SeenPage(m.lists, m.stacks, m.code, m.stack, p);
  }

  lemma WriteKeeps(m: Machine, m': Machine, va: nat, b: Byte, w: Workspace)
    requires Good(m) && Does(m, Write(va, b), m') && w in m.lists && w != m.code && w != m.stack
    ensures Keeps(m, m', w)
  {
    hide Good, PageBehind, PageAt, AccessByte, PageNo;
    forall p: nat | PageBehind(m.snap.mem, m.lists[w], p).Some?
      ensures PageBehind(m'.snap.mem, m'.lists[w], p) == PageBehind(m.snap.mem, m.lists[w], p)
    {
      FrameBehindKept(m, m'.snap.mem, w, p);
    }
  }

  /** No step but a store by a thread that has w in place changes what w holds. */
  lemma StepKeeps(m: Machine, act: Action, m': Machine, w: Workspace)
    requires Stepped(m, act, m') && w in m.lists && (act.Write? ==> w != m.code && w != m.stack)
    ensures Keeps(m, m', w)
  {
    hide Good, Grew, FaultServed, Keeps, Tick, Resumed, OthersUntouched, AccessByte;
    match act
    case Interrupt(_, _, _) => GrewKeeps(m, m', w);
    case Fault(vp, a) => FaultKeeps(m, m', vp, a, w);
    case Write(va, b) => WriteKeeps(m, m', va, b, w);
    case Enter(_, _) => GrewKeeps(m, m', w);
    case Quiet => GrewKeeps(m, m', w);
  }

  /** Every store of the run is made by a thread that does not have w in place. */
  ghost predicate NotWritten(ms: seq<Machine>, acts: seq<Action>, w: Workspace)
    requires |ms| == |acts| + 1
  {
    forall i :: 0 <= i < |acts| && acts[i].Write? ==> ms[i].code != w && ms[i].stack != w
  }

  lemma RunPrefix(ms: seq<Machine>, acts: seq<Action>, n: nat)
    requires Runs(ms, acts) && n <= |acts|
    ensures Runs(ms[..n + 1], acts[..n])
  {
    hide Stepped;
  }

  lemma RunGood(ms: seq<Machine>, acts: seq<Action>, i: nat)
    requires Runs(ms, acts) && i <= |acts| && |acts| > 0
    ensures Good(ms[i])
  {
    hide Good, Does;
    if i < |acts| { assert Stepped(ms[i], acts[i], ms[i + 1]); } else { assert Stepped(ms[i - 1], acts[i - 1], ms[i]); }
  }

  /** Isolation: over every run of interrupts, faults, spawns and stores, the memory of a workspace
      changes only by stores of threads that run with it. */
  lemma {:induction false} RunKeeps(ms: seq<Machine>, acts: seq<Action>, w: Workspace)
    requires Runs(ms, acts) && w in ms[0].lists && NotWritten(ms, acts, w)
    ensures Keeps(ms[0], ms[|acts|], w)
    decreases |acts|
  {
    hide Stepped, PageBehind;
    if acts != [] {
      var n := |acts| - 1;
      RunPrefix(ms, acts, n);
      RunKeeps(ms[..n + 1], acts[..n], w);
      assert Stepped(ms[n], acts[n], ms[n + 1]);
      StepKeeps(ms[n], acts[n], ms[n + 1], w);
    }
  }

  // ----- where isolation ends -----

  /** The machine after the handler backed page vp of workspace w with the frame at address a, with `owner` as
      owners. */
  ghost function Backed(m: Machine, w: Workspace, vp: nat, a: nat, t: Snapshot, tlb: map<nat, nat>,
                        owner: map<nat, Owner>): Machine
  {
    m.(lists := Charged(m.lists, w, vp, a), owner := owner, snap := t, tlb := tlb)
  }

  /** What the handler does to memory and the TLB is a step of the machine, for some owners that leave every
      frame to who had it, if and only if the fault found frames: free ones, or frame 0 while it holds no
      table and is nobody else's. */
  lemma FaultStepsIff(m: Machine, s1: Snapshot, t: Snapshot, d: Cache, w: Workspace, vp: nat, a: nat)
    requires Good(m) && USER_FIRST <= vp < USER_LIMIT && Walk(m.snap.mem, vp) == None
    requires w == if vp <= SPLIT_PAGE then m.code else m.stack
    requires PageGiven(m.snap, s1, a) && RunMapped(s1, t, Cache(m.tlb, {}), d, vp, 1, FirstEntry(a, USER_FLAGS))
    requires Sound(t) && Fresh(t.mem, d.tlb - d.stale)
    ensures (exists o :: KeepsOwners(m.owner, o) && Stepped(m, Fault(vp, a), Backed(m, w, vp, a, t, d.tlb, o)))
            <==> Serves(m.snap, m.owner, vp, Space(w, vp))
  {
    hide Sound, Consistent, Fresh, AllHoused, InCharge, Whole, PageGiven, RunMapped, Serves, Walk, OwnersKept, Added,
      FaultExtent, LowUnseen;
    InPlaceTogether(m);
    FaultServedIff(m.lists, m.stacks, m.owner, m.snap, s1, t, Cache(m.tlb, {}), d, m.code, m.stack, w, vp, a);
    assert d.tlb - {} == d.tlb;
    assert m.lists[w := Added(m.lists[w], FaultExtent(vp, a))].Keys == m.lists.Keys;
    if Serves(m.snap, m.owner, vp, Space(w, vp)) {
      var o := m.owner[a / 0x1000 := Space(w, vp)];
      ServedSteps(m, t, d, w, vp, a, o);
    }
  }

  lemma InPlaceTogether(m: Machine)
    requires Good(m)
    ensures m.code == null <==> m.stack == null
  {
    hide Sound, Consistent, Fresh, AllHoused, Whole;
  }

  lemma ServedSteps(m: Machine, t: Snapshot, d: Cache, w: Workspace, vp: nat, a: nat, o: map<nat, Owner>)
    requires Good(m) && USER_FIRST <= vp < USER_LIMIT && Walk(m.snap.mem, vp) == None
    requires w == (if vp <= SPLIT_PAGE then m.code else m.stack) && w in m.lists && m.lists[w] != []
    requires Sound(t) && Fresh(t.mem, d.tlb) && OwnersKept(m.owner, o, m.snap, t)
    requires Consistent(m.lists[w := Added(m.lists[w], FaultExtent(vp, a))], m.stacks, o, t, m.code, m.stack)
    ensures KeepsOwners(m.owner, o) && Stepped(m, Fault(vp, a), Backed(m, w, vp, a, t, d.tlb, o))
  {
    hide Sound, Consistent, Fresh, InCharge, Whole, Walk, Added, FaultExtent, AllHoused, PageAt;
    assert m.lists[w := Added(m.lists[w], FaultExtent(vp, a))].Keys == m.lists.Keys;
  }

  /** With no frame free every fault is answered with frame 0.  Once two pages have it, no owners can be
      found, and what is stored through one page is what the other reads. */
  lemma SharedFrame(lists: Lists, v: Workspace, w: Workspace, p: nat, q: nat)
    requires v in lists && w in lists && lists[v] != [] && lists[w] != [] && (v != w || p != q)
    ensures var both := Charged(Charged(lists, v, p, 0), w, q, 0);
            && (forall owner, s :: !Owned(both, owner, s))
            && forall m: Mem, o: nat, b: Byte {:trigger PokeByte(m, 0, o, b)} :: o < 0x1000 ==>
                 && PageBehind(PokeByte(m, 0, o, b), both[w], q).Some?
                 && PageBehind(PokeByte(m, 0, o, b), both[v], p) == PageBehind(PokeByte(m, 0, o, b), both[w], q)
                 && PageBehind(PokeByte(m, 0, o, b), both[v], p).value[o] == b
  {
    hide Mapped, Added, Owned, FrameOf;
    var one := Charged(lists, v, p, 0);
    var both := Charged(one, w, q, 0);
    ChargedHas(lists, v, p);
    ChargedHas(one, w, q);
    forall owner, s
      ensures !Owned(both, owner, s)
    {
      if Owned(both, owner, s) {
        OneOwner(both, owner, s, v, p);
        OneOwner(both, owner, s, w, q);
      }
    }
    AddedMaps(lists[v], FaultExtent(p, 0), p);
    AddedMaps(one[w], FaultExtent(q, 0), p);
    AddedMaps(one[w], FaultExtent(q, 0), q);
    FaultExtentCovers(p, 0, p);
    FaultExtentCovers(q, 0, p);
    FaultExtentCovers(q, 0, q);
    FrameOfFault(p);
    FrameOfFault(q);
  }

  lemma FrameOfFault(p: nat)
    ensures FaultExtent(p, 0).Covers(p) && FrameOf(FaultExtent(p, 0).EntryFor(p)) == 0
  {
  }

  lemma ChargedHas(lists: Lists, w: Workspace, p: nat)
    requires w in lists && lists[w] != []
    ensures var l := Charged(lists, w, p, 0);
            && l.Keys == lists.Keys && FaultExtent(p, 0) in l[w] && forall v :: v in l ==>
               (lists[v] != [] ==> l[v] != [])
    ensures forall v, q: nat :: v in lists && FaultExtent(q, 0) in lists[v] ==>
              FaultExtent(q, 0) in Charged(lists, w, p, 0)[v]
  {
    var l: Lists := Charged(lists, w, p, 0);
    assert l[w][|l[w]| - 1] == FaultExtent(p, 0);
    forall q: nat | FaultExtent(q, 0) in lists[w]
      ensures FaultExtent(q, 0) in l[w]
    {
      var i :| 0 <= i < |lists[w]| && lists[w][i] == FaultExtent(q, 0);
      assert l[w][i] == FaultExtent(q, 0);
    }
  }

  lemma OneOwner(lists: Lists, owner: map<nat, Owner>, s: Snapshot, w: Workspace, p: nat)
    requires Owned(lists, owner, s) && w in lists && FaultExtent(p, 0) in lists[w]
    ensures 0 in owner && owner[0] == Space(w, p)
  {
    hide FreeFrame, IsTable;
    var i :| 0 <= i < |lists[w]| && lists[w][i] == FaultExtent(p, 0);
    assert lists[w][i].Covers(p) && lists[w][i].FrameFor(p) == 0;
  }

  /** A spawn leaves exactly the running thread not ready if and only if that was so before and the
      recycled state byte said ready. */
  lemma EnterOrderlyIff(m: Machine, t: Thread, readyByte: bool, m': Machine)
    requires Stepped(m, Enter(t, readyByte), m')
    ensures Orderly(m'.sched) <==> Orderly(m.sched) && readyByte
  {
    hide Sound, Consistent, Fresh, AllHoused, InCharge, Grew, Distinct;
    SpawnOrderlyIff(m.sched, t, readyByte);
  }

  // ----- from a spawn to the first instruction -----

  /** The scheduler's part of a run. */
  ghost function Events(acts: seq<Action>): seq<Event<Thread>> {
    if acts == [] then []
    else
      (match acts[0]
       case Interrupt(_, locked, _) => if locked then [] else [Timer]
       case Enter(t, readyByte) => [Spawned(t, readyByte)]
       case _ => [])
      + Events(acts[1..])
  }

  lemma RunFrom(ms: seq<Machine>, acts: seq<Action>)
    requires Runs(ms, acts) && acts != []
    ensures |ms| == |acts| + 1 && Stepped(ms[0], acts[0], ms[1]) && Runs(ms[1..], acts[1..])
  {
    hide Stepped;
  }

  /** Over every run of the machine its threads are scheduled as the scheduler's own run says. */
  lemma {:induction false} RunIsSchedule(ms: seq<Machine>, acts: seq<Action>)
    requires Runs(ms, acts)
    ensures NewSpawns(ms[0].sched, Events(acts)) && Scheduler.Run(ms[0].sched, Events(acts)) == ms[|acts|].sched
    decreases |acts|
  {
    hide Good, Grew, FaultServed, Resumed, OthersUntouched, AccessByte, Tick, Spawn, Runs;
    RunLength(ms, acts);
    if acts != [] {
      RunFrom(ms, acts);
      RunIsSchedule(ms[1..], acts[1..]);
      var es := Events(acts);
      if |es| > |Events(acts[1..])| { assert es[1..] == Events(acts[1..]); } else { assert es == Events(acts[1..]); }
    }
  }

  ghost predicate RunningAt(ms: seq<Machine>, t: Thread, i: nat) {
    i < |ms| && ms[i].sched.current == Some(t)
  }

  lemma {:induction false} RunsSomewhere(ms: seq<Machine>, acts: seq<Action>, t: Thread)
    requires Runs(ms, acts) && GetsToRun(ms[0].sched, Events(acts), t)
    ensures exists i: nat :: RunningAt(ms, t, i)
    decreases |acts|
  {
    hide Good, Grew, FaultServed, Resumed, OthersUntouched, AccessByte, Tick, Spawn, Runs;
    RunLength(ms, acts);
    if acts != [] {
      RunFrom(ms, acts);
      var es := Events(acts);
      if |es| > |Events(acts[1..])| { assert es[1..] == Events(acts[1..]); } else { assert es == Events(acts[1..]); }
      if ms[1].sched.current == Some(t) {
        assert RunningAt(ms, t, 1);
      } else {
        RunsSomewhere(ms[1..], acts[1..], t);
        var i: nat :| RunningAt(ms[1..], t, i);
        assert RunningAt(ms, t, i + 1);
      }
    }
  }

  /** Thread t runs at i and not before. */
  ghost predicate FirstAt(ms: seq<Machine>, t: Thread, i: nat) {
    RunningAt(ms, t, i) && forall j: nat :: j < i ==> !RunningAt(ms, t, j)
  }

  lemma {:induction false} FirstTime(ms: seq<Machine>, t: Thread, i: nat)
    requires RunningAt(ms, t, i)
    ensures exists k: nat :: k <= i && FirstAt(ms, t, k)
  {
    if forall j: nat :: j < i ==> !RunningAt(ms, t, j) {
      assert FirstAt(ms, t, i);
    } else {
      var j: nat :| j < i && RunningAt(ms, t, j);
      FirstTime(ms, t, j);
    }
  }

  /** Until it runs, a thread stays on the ring and its saved stack pointer stays. */
  lemma {:induction false} SavedUntilRun(ms: seq<Machine>, acts: seq<Action>, t: Thread, i: nat)
    requires Runs(ms, acts) && i <= |acts| && t in ms[0].sched.ring && t in ms[0].saved
    requires forall j: nat :: j < i ==> !RunningAt(ms, t, j)
    ensures t in ms[i].sched.ring && t in ms[i].saved && ms[i].saved[t] == ms[0].saved[t]
  {
    hide Sound, Grew, FaultServed, OthersUntouched, AccessByte, Consistent, AllHoused, InCharge, Fresh, Runs, Tick,
      FirstReady;
    RunLength(ms, acts);
    if i > 0 {
      SavedUntilRun(ms, acts, t, i - 1);
      StepAt(ms, acts, i - 1);
      assert !RunningAt(ms, t, i - 1);
      StaysOnRing(ms[i - 1], acts[i - 1], ms[i], t);
    }
  }

  lemma RunLength(ms: seq<Machine>, acts: seq<Action>)
    requires Runs(ms, acts)
    ensures |ms| == |acts| + 1
  {
    hide Stepped;
  }

  lemma StepAt(ms: seq<Machine>, acts: seq<Action>, i: nat)
    requires Runs(ms, acts) && i < |acts|
    ensures Stepped(ms[i], acts[i], ms[i + 1])
  {
    hide Stepped;
  }

  lemma StaysOnRing(m: Machine, act: Action, m': Machine, t: Thread)
    requires Stepped(m, act, m') && t in m.sched.ring
    ensures t in m'.sched.ring
  {
    hide Sound, Grew, FaultServed, OthersUntouched, AccessByte, Consistent, AllHoused, InCharge, Fresh, Resumed;
    TickWhole(m.sched);
    if act.Enter? { InsertedMembers(m.sched.ring, act.t); }
  }

  /** The step in which a waiting thread comes to run is an interrupt that resumes where it was left. */
  lemma ResumesThere(m: Machine, act: Action, m': Machine, t: Thread)
    requires Stepped(m, act, m') && m.sched.current != Some(t) && m'.sched.current == Some(t) && t in m.saved
    ensures act.Interrupt? && act.next == Some(m.saved[t])
  {
    hide Sound, Grew, FaultServed, OthersUntouched, AccessByte, Consistent, AllHoused, InCharge, Fresh, Whole,
      FirstReady;
  }

  /** No other thread of the run has t's code workspace. */
  ghost predicate Alone(ms: seq<Machine>, t: Thread) {
    forall i, u :: 0 <= i < |ms| && u in ms[i].sched.ring && u.proc.codeWs == t.proc.codeWs ==> u == t
  }

  /** While another thread runs, or none, a lone thread's workspaces are not in place. */
  lemma NotInPlace(m: Machine, t: Thread)
    requires Good(m) && t in m.sched.ring && m.sched.current != Some(t)
    requires forall u :: u in m.sched.ring && u.proc.codeWs == t.proc.codeWs ==> u == t
    ensures m.code != t.proc.codeWs && m.stack != t.proc.codeWs && m.code != t.stackWs && m.stack != t.stackWs
  {
    hide Sound, Consistent, Fresh, Orderly;
  }

  /** All that workspace w held in m0 is what accesses in m get. */
  ghost predicate Shows(m0: Machine, m: Machine, w: Workspace) {
    w in m0.lists && forall p: nat :: PageBehind(m0.snap.mem, m0.lists[w], p).Some? ==>
      AccessPage(m, p) == PageBehind(m0.snap.mem, m0.lists[w], p)
  }

  lemma KeptIsShown(m0: Machine, m: Machine, w: Workspace)
    requires Good(m) && Keeps(m0, m, w) && (w == m.code || w == m.stack)
    ensures Shows(m0, m, w)
  {
    hide Good, PageBehind, AccessPage;
    forall p: nat | PageBehind(m0.snap.mem, m0.lists[w], p).Some?
      ensures AccessPage(m, p) == PageBehind(m0.snap.mem, m0.lists[w], p)
    {
      InPlaceIsSeen(m, w, p);
    }
  }

  lemma HousedThere(m: Machine, t: Thread)
    requires Good(m) && t in m.sched.ring
    ensures t.proc.codeWs in m.lists && t.stackWs in m.lists
    ensures m.sched.current == Some(t) ==> m.code == t.proc.codeWs && m.stack == t.stackWs
  {
    hide Sound, Consistent, Fresh, Whole;
  }

  /** When a lone thread first runs it resumes at its saved stack pointer, and it reads what was in
      its two workspaces when the run began. */
  lemma FirstRunShows(ms: seq<Machine>, acts: seq<Action>, t: Thread, k: nat)
    requires Runs(ms, acts) && FirstAt(ms, t, k) && k > 0 && Alone(ms, t)
    requires t in ms[0].sched.ring && t in ms[0].saved
    ensures acts[k - 1].Interrupt? && acts[k - 1].next == Some(ms[0].saved[t])
    ensures Shows(ms[0], ms[k], t.proc.codeWs) && Shows(ms[0], ms[k], t.stackWs)
  {
    hide Good, Does, Keeps, Shows, Runs;
    RunLength(ms, acts);
    RunGood(ms, acts, 0);
    HousedThere(ms[0], t);
    RunPrefix(ms, acts, k);
    var ns, bs := ms[..k + 1], acts[..k];
    forall i | 0 <= i < |bs| && bs[i].Write?
      ensures ns[i].code != t.proc.codeWs && ns[i].stack != t.proc.codeWs && ns[i].code != t.stackWs
              && ns[i].stack != t.stackWs
    {
      SavedUntilRun(ms, acts, t, i);
      RunGood(ms, acts, i);
      assert !RunningAt(ms, t, i);
      NotInPlace(ms[i], t);
    }
    RunKeeps(ns, bs, t.proc.codeWs);
    RunKeeps(ns, bs, t.stackWs);
    SavedUntilRun(ms, acts, t, k - 1);
    SavedUntilRun(ms, acts, t, k);
    StepAt(ms, acts, k - 1);
    assert !RunningAt(ms, t, k - 1);
    ResumesThere(ms[k - 1], acts[k - 1], ms[k], t);
    HousedThere(ms[k], t);
    RunGood(ms, acts, k);
    KeptIsShown(ms[0], ms[k], t.proc.codeWs);
    KeptIsShown(ms[0], ms[k], t.stackWs);
  }

  /** The state that spawn_process leaves: the image in the code workspace, the first return frame on
      the stack, and the thread to be resumed there. */
  ghost predicate Prepared(m: Machine, t: Thread, cd: seq<Byte>, ssz: nat, n: nat, func: nat, flags: nat)
    requires ssz <= |cd|
  {
    && t in m.saved && m.saved[t] == FIRST_RSP
    && ImageReady(m.snap.mem, ListOf(m.lists, t.proc.codeWs), cd, ssz, n)
    && EntersAt(m.snap.mem, ListOf(m.lists, t.stackWs), func, flags)
  }

  /** The top frame of a stack holds a return frame for func. */
  ghost predicate EntersAt(m: Mem, stack: seq<Extent>, func: nat, flags: nat) {
    forall k: nat :: k < 5 ==> WordIn(m, stack, FIRST_RSP + 8 * k) == Some(FirstFrame(func, flags)[k])
  }

  /** What a program finds at its first instruction. */
  ghost predicate Starts(m: Machine, cd: seq<Byte>, ssz: nat, n: nat, func: nat, flags: nat)
    requires ssz <= |cd|
  {
    && (forall i: nat :: i < n ==> AccessByte(m, 0x10_0000 + i) == Some(ImageByte(cd, ssz, i)))
    && (forall k: nat :: k < 5 ==> AccessWord(m, 0x7FFF_FFFF_FFB0 + 8 * k) == Some(FirstFrame(func, flags)[k]))
  }

  lemma ShownStarts(m0: Machine, m: Machine, t: Thread, cd: seq<Byte>, ssz: nat, n: nat, func: nat, flags: nat)
    requires ssz <= |cd| && Prepared(m0, t, cd, ssz, n, func, flags)
    requires Shows(m0, m, t.proc.codeWs) && Shows(m0, m, t.stackWs)
    ensures Starts(m, cd, ssz, n, func, flags)
  {
    hide Mapped, PageAt, FrameOf, AccessPage, ImageByte, PageNo, InPage, WordNo;
    var code, stack := ListOf(m0.lists, t.proc.codeWs), ListOf(m0.lists, t.stackWs);
    forall i: nat | i < n
      ensures AccessByte(m, USPACE_BOT + i) == Some(ImageByte(cd, ssz, i))
    {
      assert ByteIn(m0.snap.mem, code, USPACE_BOT + i) == Some(ImageByte(cd, ssz, i));
      assert PageBehind(m0.snap.mem, code, PageNo(USPACE_BOT + i)).Some?;
    }
    forall k: nat | k < 5
      ensures AccessWord(m, FIRST_RSP + 8 * k) == Some(FirstFrame(func, flags)[k])
    {
      assert WordIn(m0.snap.mem, stack, FIRST_RSP + 8 * k) == Some(FirstFrame(func, flags)[k]);
      assert PageBehind(m0.snap.mem, stack, PageNo(FIRST_RSP + 8 * k)).Some?;
    }
  }

  /** A program that is spawned ready at distance d from the head of the ring comes to run within d+1
      switches and one more for each thread spawned meanwhile; it is then entered through its first
      return frame and reads its own image, whatever other programs did before. */
  lemma ProgramStarts(ms: seq<Machine>, acts: seq<Action>, d: nat, cd: seq<Byte>, ssz: nat, n: nat, func: nat,
                      flags: nat)
    returns (k: nat)
    requires Runs(ms, acts) && d < |ms[0].sched.ring| && ms[0].sched.ring[d] in ms[0].sched.ready
    requires CountTicks(Events(acts)) >= d + 1 + (|Events(acts)| - CountTicks(Events(acts)))
    requires Alone(ms, ms[0].sched.ring[d]) && ssz <= |cd|
    requires Prepared(ms[0], ms[0].sched.ring[d], cd, ssz, n, func, flags)
    ensures 0 < k <= |acts| && FirstAt(ms, ms[0].sched.ring[d], k)
    ensures acts[k - 1].Interrupt? && acts[k - 1].next == Some(0x7FFF_FFFF_FFB0)
    ensures Starts(ms[k], cd, ssz, n, func, flags)
  {
    hide Good, Does, Shows, Starts, ImageReady, EntersAt, Runs;
    RunLength(ms, acts);
    var t := ms[0].sched.ring[d];
    RunGood(ms, acts, 0);
    RingParts(ms[0]);
    RunIsSchedule(ms, acts);
    Fair(ms[0].sched, Events(acts), d);
    RunsSomewhere(ms, acts, t);
    var i: nat :| RunningAt(ms, t, i);
    FirstTime(ms, t, i);
    k :| k <= i && FirstAt(ms, t, k);
    FirstRunShows(ms, acts, t, k);
    ShownStarts(ms[0], ms[k], t, cd, ssz, n, func, flags);
  }

  lemma RingParts(m: Machine)
    requires Good(m)
    ensures Distinct(m.sched.ring) && forall t :: t in m.sched.ready ==> m.sched.current != Some(t)
  {
    hide Sound, Consistent, Fresh, AllHoused, InCharge, Distinct;
  }
}
