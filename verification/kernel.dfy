/** Threads and address spaces together: spawning, switching, and what programs see. */
module Kernels {
  import opened Bytes
  import opened Options
  import opened PageTables
  import opened PageManager
  import opened FrameSupply
  import opened PagingUnit
  import opened Workspaces
  import opened SpaceSwitch
  import opened AddressSpaces
  import opened Loader
  import opened PagerState
  import opened ProcessImages
  import opened UserViews
  import opened Scheduler
  import opened RunQueues
  import opened Machines

  /** Frames for every page table that switching to the next thread needs. */
  ghost predicate RoomToSwitch(s: Sched<Thread>, lists: Lists, owner: map<nat, Owner>, snap: Snapshot) {
    var k := FirstReady(s.ring, s.ready);
    k < |s.ring| ==>
      Finds(snap, owner, TablesForAll(ListOf(lists, s.ring[k].proc.codeWs))
                         + TablesForAll(ListOf(lists, s.ring[k].stackWs)))
  }

  class Kernel {
    const pager: Pager
    const queue: RunQueue
    const processes: ProcessRing
    /** Bit 1 of procthrd_lock. */
    var ringLocked: bool

    constructor (pager: Pager)
      requires pager.Valid() && pager.codeWs == null && pager.stackWs == null
      ensures this.pager == pager && fresh(queue) && Valid() && queue.ring == [] && !ringLocked
      ensures fresh(processes) && processes.Linked() && processes.ring == [] && !processes.locked
    {
      hide Mmu.Valid, Mmu.Coherent, Consistent, Mmu.Snap;
      var q := new RunQueue();
      var ps := new ProcessRing();
      this.pager, queue, processes, ringLocked := pager, q, ps, false;
    }

    /** Memory is consistent, the ring is one cycle of housed threads, the running thread is on it and
        not ready, and its workspaces are the ones in place. */
    ghost predicate Valid()
      reads pager, pager.mmu, pager.mmu.pages, pager.mmu.pages.chain, pager.spaces, queue, queue.ring
    {
      && pager.Valid()
      && queue.Linked()
      && AllHoused(queue.ring, pager.spaces, pager.stacks)
      && Whole(queue.Abs())
      && InCharge(queue.Running(), pager.codeWs, pager.stackWs)
    }

    ghost function Now(): Machine
      reads pager, pager.mmu, pager.mmu.pages, pager.mmu.pages.chain, pager.spaces, queue, queue.ring
    {
      Machine(pager.Lists(), pager.stacks, pager.owner, pager.mmu.Snap(), pager.mmu.tlb, pager.codeWs, pager.stackWs,
              queue.Abs(), queue.Saved())
    }

    ghost function Frames(): Snapshot
      reads pager, pager.mmu, pager.mmu.pages, pager.mmu.pages.chain
    {
      pager.mmu.Snap()
    }

    /** The timer interrupt.  Unless the ring is locked or nobody is ready, the first ready thread
        from the head on runs next. */
    method ContextSwitch(rsp: nat) returns (next: Option<nat>)
      requires Valid() && RoomToSwitch(queue.Abs(), pager.Lists(), pager.owner, Frames())
      modifies queue, queue.ring, pager`codeWs, pager`stackWs, pager.mmu, pager.mmu.pages, pager.mmu.pages.repr
      ensures Valid() && pager.Lists() == old(pager.Lists())
      ensures Stepped(old(Now()), Interrupt(rsp, ringLocked, next), Now())
      ensures pager.mmu.pages.repr == old(pager.mmu.pages.repr)
      ensures queue.Abs() == if ringLocked then old(queue.Abs()) else Tick(old(queue.Abs()))
      ensures Resumed(old(queue.Abs()), ringLocked, old(queue.Saved()), queue.Saved(), rsp, next)
      ensures OwnedKept(pager.owner, old(Frames()), Frames())
    {
      hide *;
      ghost var m := Now();
      GoodNow();
      next := Dispatch(rsp);
      GoodNow();
      Switched(m, Now(), rsp, ringLocked, next);
    }

    method Dispatch(rsp: nat) returns (next: Option<nat>)
      requires Valid() && RoomToSwitch(queue.Abs(), pager.Lists(), pager.owner, Frames())
      modifies queue, queue.ring, pager`codeWs, pager`stackWs, pager.mmu, pager.mmu.pages, pager.mmu.pages.repr
      ensures Valid() && pager.Lists() == old(pager.Lists())
      ensures pager.mmu.pages.repr == old(pager.mmu.pages.repr)
      ensures queue.Abs() == if ringLocked then old(queue.Abs()) else Tick(old(queue.Abs()))
      ensures Resumed(old(queue.Abs()), ringLocked, old(queue.Saved()), queue.Saved(), rsp, next)
      ensures OwnedKept(pager.owner, old(Frames()), Frames())
    {
      hide Consistent, Mmu.Snap, Mmu.Valid, Mmu.Coherent, TablesForAll, Finds, Affords, Pager.Valid, Pager.Lists,
        RunQueue.Linked, OwnedKept, Orderly, Whole, Extends, FirstReady, Tick, Resumed, RoomToSwitch, Distinct,
        Kernel.Valid;
      ghost var s, snap, saved := queue.Abs(), Frames(), queue.Saved();
      ValidMeans();
      next := None;
      if ringLocked {
        StaysAsItWas(s, ringLocked, saved, rsp, pager.owner, snap);
        return;
      }
      var t := queue.Search();
      if t == null {
        StaysAsItWas(s, ringLocked, saved, rsp, pager.owner, snap);
        return;
      }
      next := SwitchTo(t, rsp, FirstReady(s.ring, s.ready));
    }

    /** spawn_thread: `flags` is what pushfq gave, `recycled` the state byte of the object that
        alloc_kobj returned, which is never written. */
    method SpawnThread(proc: Process, func: nat, flags: nat, recycled: nat) returns (thrd: Thread?)
      requires Valid() && !ringLocked && func < WORD_LIMIT && flags < WORD_LIMIT
      requires proc.codeWs in pager.spaces && proc.codeWs !in pager.stacks
      modifies this`ringLocked, queue, queue.ring, pager`spaces, pager`stacks, pager`owner,
               pager.mmu, pager.mmu.pages, pager.mmu.pages.repr
      ensures Valid() && !ringLocked && pager.mmu.pages.repr == old(pager.mmu.pages.repr)
      ensures var (pg, rest) := Allocated(old(Now()).snap.regions, 2);
              Now().snap.regions == rest && (thrd == null <==> pg == 0)
      ensures thrd == null ==> Now() == old(Now())
      ensures Stepped(old(Now()), Spawning(thrd, recycled), Now())
      ensures thrd != null ==>
                && fresh(thrd) && fresh(thrd.stackWs) && thrd.proc == proc
                && thrd.stackWs.extents == [StackExtent(Allocated(old(Now()).snap.regions, 2).0)]
                && EntersAt(Now().snap.mem, ListOf(Now().lists, thrd.stackWs), func, flags)
    {
      hide *;
      ghost var m := Now();
      var ws := LayStack(func, flags);
      if ws == null {
        thrd := null;
        GoodNow();
        Still(m, recycled);
        return;
      }
      EntryPoints();
      ghost var m1 := Now();
      thrd := new Thread(proc, ws, FIRST_RSP, recycled);
      HousedWith(thrd, pager.spaces, pager.stacks);
      Enlist(thrd);
      EnteringIs(thrd, recycled);
      EnteredAfterStack(m, m1, Now(), ws, func, flags, thrd, recycled == READY);
    }

    /** A stack workspace with the thread's first return frame. */
    method LayStack(func: nat, flags: nat) returns (ws: Workspace?)
      requires Valid() && func < WORD_LIMIT && flags < WORD_LIMIT
      modifies pager`spaces, pager`stacks, pager`owner, pager.mmu, pager.mmu.pages, pager.mmu.pages.repr
      ensures Valid() && pager.mmu.pages.repr == old(pager.mmu.pages.repr)
      ensures Now().snap.regions == Allocated(old(Now()).snap.regions, 2).1
      ensures ws == null <==> Allocated(old(Now()).snap.regions, 2).0 == 0
      ensures ws == null ==> Now() == old(Now())
      ensures old(pager.spaces) <= pager.spaces && old(pager.stacks) <= pager.stacks
      ensures forall v :: v in old(pager.spaces) ==> (v in pager.stacks <==> v in old(pager.stacks))
      ensures ws != null ==> ws in pager.spaces && ws in pager.stacks && forall u :: u in queue.ring ==> u.stackWs != ws
      ensures ws != null ==>
                && fresh(ws) && StackLaid(old(Now()), Now(), ws, func, flags)
                && ws.extents == [StackExtent(Allocated(old(Now()).snap.regions, 2).0)]
    {
      hide Consistent, Mmu.Snap, Mmu.Valid, Mmu.Coherent, Pager.Valid, RunQueue.Linked, OwnedKept,
        KeepsOwners, Orderly, Whole, FreeList.Regions, Allocated, FrameBuilt, AllHoused, RunQueue.Abs,
        Kernel.Valid, InCharge, StackExtent, RunQueue.Running, RunQueue.Saved, Good, EntersAt, Extent.Good, Sound;
      ValidMeans();
      GoodNow();
      SnapParts(pager.mmu);
      ghost var m, spaces, stacks := Now(), pager.spaces, pager.stacks;
      var w, pg := NewStack(pager, func, flags);
      ws := w;
      SnapParts(pager.mmu);
      MoreSpaces(queue.ring, spaces, stacks, pager.spaces, pager.stacks);
      ValidMeans();
      if ws == null {
        assert pager.Lists() == m.lists;
        return;
      }
      StackIsNew(queue.ring, spaces, stacks, ws);
      GoodStack(pager, ws, pg);
      FrameEnters(pager.mmu.mem, pg, func, flags);
      SnapParts(pager.mmu);
      GoodNow();
    }

    /** The insertion, under bit 1 of the lock. */
    method Enlist(thrd: Thread)
      requires Valid() && !ringLocked && thrd !in queue.ring && Housed(thrd, pager.spaces, pager.stacks)
      requires forall u :: u in queue.ring ==> u.stackWs != thrd.stackWs
      modifies this`ringLocked, queue, queue.ring, thrd
      ensures Valid() && !ringLocked && Good(Now()) && thrd !in old(Now()).sched.ring
      ensures Now() == Joined(old(Now()), thrd, old(thrd.state) == READY, old(thrd.rsp))
    {
      hide *;
      ghost var m := Now();
      GoodNow();
      AbsIs(queue);
      ringLocked := true;
      Link(thrd);
      ringLocked := false;
      GoodNow();
      JoinedIs(m, Now(), thrd, old(thrd.state) == READY, old(thrd.rsp));
    }

    method Link(thrd: Thread)
      requires Valid() && thrd !in queue.ring && Housed(thrd, pager.spaces, pager.stacks)
      requires forall u :: u in queue.ring ==> u.stackWs != thrd.stackWs
      modifies queue, queue.ring, thrd
      ensures Valid() && queue.Saved() == old(queue.Saved())[thrd := old(thrd.rsp)]
      ensures queue.Abs() == Spawn(old(queue.Abs()), thrd, old(thrd.state) == READY)
    {
      hide Consistent, Mmu.Snap, Mmu.Valid, Mmu.Coherent, Pager.Valid, Pager.Lists, RunQueue.Linked,
        Orderly, Whole, Spawn, AllHoused, RunQueue.Abs, Inserted, Kernel.Valid, InCharge;
      ValidMeans();
      ghost var s, ring, saved := queue.Abs(), queue.ring, queue.Saved();
      AbsIs(queue);
      HeadIn(queue);
      MoreHoused(ring, thrd, pager.spaces, pager.stacks);
      queue.Insert(thrd);
      SpawnWhole(s, thrd, thrd.state == READY);
      ValidMeans();
      assert queue.Saved() == saved[thrd := thrd.rsp] by { InsertedMembers(ring, thrd); }
    }

    /** spawn_process up to its own ring: the program is loaded and its thread spawned.  When there are
        pages for the program but none for a stack, part of them is given back. */
    method StartProgram(cd: seq<Byte>, csz: nat, dsz: nat, bsz: nat, flags: nat, recycled: nat)
      returns (proc: Process?, thrd: Thread?)
      requires Valid() && !ringLocked && flags < WORD_LIMIT
      requires csz + dsz <= |cd| && ImagePages(csz, dsz, bsz) + 0x200 < 0x10_0000
      modifies this`ringLocked, queue, queue.ring, pager`spaces, pager`stacks, pager`owner,
               pager.mmu, pager.mmu.pages, pager.mmu.pages.repr
      ensures !ringLocked && fresh(pager.mmu.pages.repr - old(pager.mmu.pages.repr))
      ensures Outcome(old(Now()), Now(), ImagePages(csz, dsz, bsz), proc, thrd, recycled == READY,
                      cd, csz + dsz, csz + dsz + bsz, flags, Valid())
      ensures (proc != null ==> fresh(proc)) && (thrd != null ==> fresh(thrd))
    {
      hide *;
      ghost var m := Now();
      EntryPoints();
      var ws, pbase := Load(cd, csz, dsz, bsz);
      if ws == null {
        proc, thrd := null, null;
        NoProgram(m, ImagePages(csz, dsz, bsz), recycled == READY, cd, csz + dsz, csz + dsz + bsz, flags);
        return;
      }
      ghost var m1 := Now();
      proc := new Process(ws);
      thrd := SpawnThread(proc, USPACE_BOT, flags, recycled);
      if thrd == null {
        Abandon(pbase, ImagePages(csz, dsz, bsz), m, ws, recycled == READY, cd, csz + dsz, csz + dsz + bsz, flags);
        proc := null;
      } else {
        EnteringIs(thrd, recycled);
        ProgramEntered(m, m1, Now(), ImagePages(csz, dsz, bsz), proc, thrd, recycled == READY,
                       cd, csz + dsz, csz + dsz + bsz, flags);
      }
    }

    /** The first half of spawn_process: a code workspace holding the image. */
    method Load(cd: seq<Byte>, csz: nat, dsz: nat, bsz: nat) returns (ws: Workspace?, pbase: nat)
      requires Valid() && csz + dsz <= |cd| && ImagePages(csz, dsz, bsz) + 0x200 < 0x10_0000
      modifies pager`spaces, pager`stacks, pager`owner, pager.mmu, pager.mmu.pages, pager.mmu.pages.repr
      ensures Valid() && pager.mmu.pages.repr == old(pager.mmu.pages.repr)
      ensures (pbase, Now().snap.regions)
              == Allocated(old(Now()).snap.regions, ImagePages(csz, dsz, bsz) + 0x200)
      ensures ws == null <==> pbase == 0
      ensures ws == null ==> Now() == old(Now())
      ensures ws != null ==> ws in pager.spaces && ws !in pager.stacks
      ensures ws != null ==> fresh(ws) && ProgramLoaded(old(Now()), Now(), ws, cd, csz + dsz, csz + dsz + bsz)
    {
      hide Consistent, Mmu.Snap, Mmu.Valid, Mmu.Coherent, Pager.Valid, RunQueue.Linked, OwnedKept,
        KeepsOwners, Orderly, Whole, FreeList.Regions, Allocated, AllHoused, RunQueue.Abs, ImageReady,
        ImageIn, ImagePages, Owned, AllGood, Extent.Good, RoundUp, CodeExtent, Housed, Kernel.Valid,
        InCharge, RunQueue.Running, RunQueue.Saved, Sound, Good;
      ValidMeans();
      GoodNow();
      SnapParts(pager.mmu);
      ghost var m, spaces, stacks := Now(), pager.spaces, pager.stacks;
      ws, pbase := LoadProgram(pager, cd, csz, dsz, bsz);
      SnapParts(pager.mmu);
      MoreSpaces(queue.ring, spaces, stacks, pager.spaces, pager.stacks);
      ValidMeans();
      if ws == null {
        assert pager.Lists() == m.lists;
        return;
      }
      LoadedList(pager, ws, pbase, ImagePages(csz, dsz, bsz) + 0x200);
      SnapParts(pager.mmu);
      CodeReady(pager.mmu.mem, ws, pbase, cd, csz, dsz, bsz);
      GoodNow();
    }

    /** spawn_process when its thread cannot be had. */
    method Abandon(pbase: nat, pgs: nat, ghost m: Machine, ghost ws: Workspace, ghost readyByte: bool,
                   ghost cd: seq<Byte>, ghost ssz: nat, ghost n: nat, ghost flags: nat)
      requires Valid() && pgs + 0x200 < 0x10_0000 && ssz <= |cd| && ProgramLoaded(m, Now(), ws, cd, ssz, n)
      requires (pbase, Now().snap.regions) == Allocated(m.snap.regions, pgs + 0x200) && pbase != 0
      requires Allocated(Now().snap.regions, 2).0 == 0
      modifies pager`spaces, pager`owner, pager.mmu.pages, pager.mmu.pages.repr
      ensures Outcome(m, Now(), pgs, null, null, readyByte, cd, ssz, n, flags, Valid())
      ensures fresh(pager.mmu.pages.repr - old(pager.mmu.pages.repr))
    {
      hide Consistent, Mmu.Snap, Mmu.Valid, Mmu.Coherent, Pager.Valid, RunQueue.Linked, OwnedKept, ImageReady,
        KeepsOwners, Whole, FreeList.Regions, Allocated, AllHoused, RunQueue.Abs, Freed,
        Kernel.Valid, InCharge, RunQueue.Running, RunQueue.Saved, Sound, FreedInPages;
      ValidMeans();
      HousedBefore(m, Now());
      AbsIs(queue);
      SnapParts(pager.mmu);
      ghost var m1 := Now();
      GiveBack(pager, pbase, pgs, pgs + 0x200, m.lists.Keys, m.lists, m.owner, m.snap);
      SnapParts(pager.mmu);
      KeptSameMem(m, m1, Now());
      ValidMeans();
      if Valid() {
        GoodNow();
        NothingMore(m, Now());
      }
    }

    /** spawn_process: afterwards the new thread is on the ring, its image is at its user addresses, and
        its first switch will enter it at USPACE_BOT; or there was no memory for it. */
    method SpawnProcess(cd: seq<Byte>, csz: nat, dsz: nat, bsz: nat, flags: nat, recycled: nat)
      returns (proc: Process?, thrd: Thread?)
      requires Valid() && !ringLocked && flags < WORD_LIMIT
      requires csz + dsz <= |cd| && ImagePages(csz, dsz, bsz) + 0x200 < 0x10_0000
      requires processes.Linked() && !processes.locked
      modifies this`ringLocked, processes, processes.ring, queue, queue.ring, pager`spaces, pager`stacks, pager`owner,
               pager.mmu, pager.mmu.pages, pager.mmu.pages.repr
      ensures !ringLocked && fresh(pager.mmu.pages.repr - old(pager.mmu.pages.repr))
      ensures Outcome(old(Now()), Now(), ImagePages(csz, dsz, bsz), proc, thrd, recycled == READY,
                      cd, csz + dsz, csz + dsz + bsz, flags, Valid())
      ensures processes.Linked() && !processes.locked
      ensures proc == null ==> processes.ring == old(processes.ring)
      ensures proc != null ==> var p: Process := proc; processes.ring == Inserted(old(processes.ring), p)
      ensures (proc != null ==> fresh(proc)) && (thrd != null ==> fresh(thrd))
    {
      hide *;
      proc, thrd := StartProgram(cd, csz, dsz, bsz, flags, recycled);
      if proc != null { processes.Insert(proc); }
    }

    /** The first half of a switch: the next thread is marked, the head moves on, code pages change. */
    method EnterCode(t: Thread, ghost k: nat)
      requires Valid() && RoomToSwitch(queue.Abs(), pager.Lists(), pager.owner, Frames())
      requires k == FirstReady(queue.ring, queue.Abs().ready) && k < |queue.ring| && t == queue.ring[k]
      modifies queue`headThread, queue`ring, t`state, pager`codeWs, pager`stackWs,
               pager.mmu, pager.mmu.pages, pager.mmu.pages.repr
      ensures pager.Valid() && pager.Lists() == old(pager.Lists())
      ensures pager.mmu.pages.repr == old(pager.mmu.pages.repr)
      ensures pager.codeWs == t.proc.codeWs && pager.stackWs == old(pager.stackWs)
      ensures queue.Linked() && queue.Abs() == HalfTicked(old(queue.Abs()), k) && t.state == STARTED
      ensures queue.Saved() == old(queue.Saved())
      ensures Finds(Frames(), pager.owner, TablesForAll(ListOf(pager.Lists(), t.stackWs)))
      ensures OwnedKept(pager.owner, old(Frames()), Frames())
    {
      hide Consistent, Mmu.Snap, Mmu.Valid, Mmu.Coherent, TablesForAll, Finds, Affords, Pager.Valid, Pager.Lists,
        RunQueue.Linked, OwnedKept, Orderly, Whole, Extends, FirstReady, RoomToSwitch, Distinct, Owned, Rotated,
        RunQueue.Abs, ListOf, Kernel.Valid, AllHoused, InCharge;
      ThreadPart(t);
      ghost var s, lists, snap := queue.Abs(), pager.Lists(), Frames();
      AbsIs(queue);
      ghost var code, stack := ListOf(lists, t.proc.codeWs), ListOf(lists, t.stackWs);
      RoomForNext(s, lists, pager.owner, snap, t);
      OwnedOf(pager);
      queue.Start(t, k);
      pager.SwapWs(t.proc.codeWs, CODE_DATA_WS);
      RoomLeft(snap, Frames(), pager.owner, TablesForAll(code), TablesForAll(stack));
      ExtendsKeeps(lists, pager.owner, snap, Frames(), TablesForAll(code));
    }

    /** The second half: the old thread's stack pointer is saved and the stack pages change. */
    method EnterStack(t: Thread, rsp: nat)
      requires pager.Valid() && queue.Linked() && t in queue.ring && t.state != READY && queue.currentThread != t
      requires queue.currentThread != null ==> queue.currentThread in queue.ring
      requires Housed(t, pager.spaces, pager.stacks) && pager.codeWs == t.proc.codeWs
      requires Finds(Frames(), pager.owner, TablesForAll(ListOf(pager.Lists(), t.stackWs)))
      modifies queue, queue.CurrentOr(t)`state, queue.CurrentOr(t)`rsp, pager`codeWs, pager`stackWs,
               pager.mmu, pager.mmu.pages, pager.mmu.pages.repr
      ensures pager.Valid() && pager.Lists() == old(pager.Lists())
      ensures pager.mmu.pages.repr == old(pager.mmu.pages.repr)
      ensures pager.codeWs == t.proc.codeWs && pager.stackWs == t.stackWs
      ensures queue.Linked() && queue.Abs() == Departed(old(queue.Abs()), t)
      ensures t.rsp == old(t.rsp) && queue.Saved() == Resaved(old(queue.Saved()), old(queue.Running()), rsp)
      ensures OwnedKept(pager.owner, old(Frames()), Frames())
    {
      hide Consistent, Mmu.Snap, Mmu.Valid, Mmu.Coherent, TablesForAll, Finds, Affords, Pager.Valid, Pager.Lists,
        RunQueue.Linked, OwnedKept, Extends, Distinct, Owned, RunQueue.Abs, ListOf;
      ghost var lists, snap, stack := pager.Lists(), Frames(), ListOf(pager.Lists(), t.stackWs);
      AbsIs(queue);
      OwnedOf(pager);
      FindsLess(snap, pager.owner, TablesForAll(stack), TablesForAll(stack));
      queue.Depart(t, rsp);
      pager.SwapWs(t.stackWs, STACK_WS);
      ExtendsKeeps(lists, pager.owner, snap, Frames(), TablesForAll(stack));
      AbsIs(queue);
    }

    method SwitchTo(t: Thread, rsp: nat, ghost k: nat) returns (next: Option<nat>)
      requires Valid() && RoomToSwitch(queue.Abs(), pager.Lists(), pager.owner, Frames()) && !ringLocked
      requires k == FirstReady(queue.ring, queue.Abs().ready) && k < |queue.ring| && t == queue.ring[k]
      modifies queue, queue.ring, pager`codeWs, pager`stackWs, pager.mmu, pager.mmu.pages, pager.mmu.pages.repr
      ensures Valid() && pager.Lists() == old(pager.Lists())
      ensures pager.mmu.pages.repr == old(pager.mmu.pages.repr)
      ensures queue.Abs() == Tick(old(queue.Abs()))
      ensures Resumed(old(queue.Abs()), false, old(queue.Saved()), queue.Saved(), rsp, next)
      ensures OwnedKept(pager.owner, old(Frames()), Frames())
    {
      hide Consistent, Mmu.Snap, Mmu.Valid, Mmu.Coherent, TablesForAll, Finds, Affords, Pager.Valid, Pager.Lists,
        RunQueue.Linked, OwnedKept, Orderly, Whole, Extends, FirstReady, Tick, Resumed, RoomToSwitch, Distinct,
        Owned, Rotated, RunQueue.Saved, RunQueue.Abs, ListOf, Kernel.Valid, AllHoused, InCharge, Members;
      ThreadPart(t);
      ghost var s, snap, saved := queue.Abs(), Frames(), queue.Saved();
      AbsIs(queue);
      TickIs(s, k);
      EnterCode(t, k);
      ghost var snap1 := Frames();
      AbsIs(queue);
      RingMembers(queue.ring, s.ring);
      EnterStack(t, rsp);
      KeptOnwards(pager.owner, snap, snap1, Frames());
      next := Some(t.rsp);
      AbsIs(queue);
      SavedAt(queue, t);
      ResumedAfter(s, k, saved, queue.Saved(), rsp, t.rsp);
      ValidAfter(t, s.ring);
    }

    /** A switch loses no program's image, and a program that comes to run reads its own. */
    method SwitchShowsImage(rsp: nat, ghost w: Workspace, ghost cd: seq<Byte>, ghost ssz: nat, ghost n: nat)
      returns (next: Option<nat>)
      requires Valid() && RoomToSwitch(queue.Abs(), pager.Lists(), pager.owner, Frames())
      requires w in pager.spaces && ssz <= |cd| && ImageReady(pager.mmu.mem, w.extents, cd, ssz, n)
      modifies queue, queue.ring, pager`codeWs, pager`stackWs, pager.mmu, pager.mmu.pages, pager.mmu.pages.repr
      ensures Valid() && ImageReady(pager.mmu.mem, w.extents, cd, ssz, n)
      ensures pager.codeWs == w ==> forall i: nat :: i < n ==>
              Reads(pager.mmu, USPACE_BOT + i) == Some(ImageByte(cd, ssz, i))
    {
      hide Consistent, Mmu.Snap, Mmu.Valid, Mmu.Coherent, Pager.Valid, RunQueue.Linked, OwnedKept, Orderly, Whole,
        RunQueue.Abs,
        ImageReady, Owned, AllGood, FramesOfKept, InCharge, RunQueue.Running, Sound, Tick, Resumed, AllHoused,
        RunQueue.Saved, RoomToSwitch, Reads, ImageByte;
      ghost var lists, snap := pager.Lists(), Frames();
      PagerParts(pager);
      SnapParts(pager.mmu);
      AllListsGood(pager, w);
      next := ContextSwitch(rsp);
      SnapParts(pager.mmu);
      OwnedPages(pager.owner, snap, Frames(), w);
      ImageStays(lists, pager.owner, snap, pager.mmu.mem, w, cd, ssz, n);
      assert pager.Lists()[w] == w.extents;
      if pager.codeWs == w {
        forall i: nat | i < n
          ensures Reads(pager.mmu, USPACE_BOT + i) == Some(ImageByte(cd, ssz, i))
        {
          ProgramSeesImage(pager, cd, ssz, n, i);
        }
      }
    }

    /** The page-fault handler, with the running thread's workspaces in place.  It is a step of the machine if
        the fault finds frames; if not, the page shares frame 0 with a table or with its owner. */
    method PageFault(cr2: nat) returns (a: nat)
      requires Valid() && FaultAt(Frames(), cr2)
      requires cr2 <= KSPACE_LOC ==> USER_FIRST <= PageNo(cr2) < USER_LIMIT && queue.currentThread != null
      modifies pager`owner, pager.codeWs, pager.stackWs, pager.mmu, pager.mmu.pages, pager.mmu.pages.repr
      ensures pager.mmu.Valid() && pager.mmu.Coherent() && pager.mmu.pages.repr == old(pager.mmu.pages.repr)
      ensures FaultOutcome(old(Frames()), old(pager.owner), Frames(), pager.owner, PageNo(cr2), a,
                           FaultOwner(cr2, pager.ChargedTo(PageNo(cr2))), Valid())
      ensures ListsAfterFault(old(Now()), Now(), cr2, a) && SameThreads(old(Now()), Now())
      ensures Serves(old(Frames()), old(pager.owner), PageNo(cr2), FaultOwner(cr2, pager.ChargedTo(PageNo(cr2)))) ==>
                Stepped(old(Now()), Fault(PageNo(cr2), a), Now())
    {
      hide *;
      ghost var m := Now();
      GoodNow();
      ChargedInPlace(PageNo(cr2));
      a := Serve(cr2);
      NowIs();
      ServedWhen(m.snap, m.owner, Frames(), pager.owner, PageNo(cr2), a, FaultOwner(cr2, pager.ChargedTo(PageNo(cr2))),
                 Valid());
      if Valid() {
        GoodNow();
        if Serves(m.snap, m.owner, PageNo(cr2), FaultOwner(cr2, pager.ChargedTo(PageNo(cr2)))) {
          FaultIsServed(m, Now(), cr2, a);
        }
      }
    }

    method Serve(cr2: nat) returns (a: nat)
      requires Valid() && FaultAt(Frames(), cr2)
      requires cr2 <= KSPACE_LOC ==> USER_FIRST <= PageNo(cr2) < USER_LIMIT && pager.ChargedTo(PageNo(cr2)) != null
      modifies pager`owner, pager.codeWs, pager.stackWs, pager.mmu, pager.mmu.pages, pager.mmu.pages.repr
      ensures pager.mmu.Valid() && pager.mmu.Coherent() && pager.mmu.pages.repr == old(pager.mmu.pages.repr)
      ensures FaultOutcome(old(Frames()), old(pager.owner), Frames(), pager.owner, PageNo(cr2), a,
                           FaultOwner(cr2, pager.ChargedTo(PageNo(cr2))), Valid())
      ensures ListsAfterFault(old(Now()), Now(), cr2, a) && SameThreads(old(Now()), Now())
    {
      hide Consistent, Mmu.Snap, Mmu.Valid, Mmu.Coherent, Pager.Valid, RunQueue.Linked, Orderly, Whole, RunQueue.Abs,
        FaultOutcome, FaultAt, FaultOwner, PageNo, AllHoused, Pager.Lists, Charged, ListOf, Distinct, Kernel.Valid,
        RunQueue.Saved, RunQueue.Running, InCharge;
      ValidMeans();
      a := pager.PageFault(cr2);
      ValidMeans();
    }

    /** A store by the running program, to a page of its own. */
    method Store(va: nat, b: Byte)
      requires Valid() && UserMapped(pager.Lists(), pager.codeWs, pager.stackWs, va)
      modifies pager.mmu
      ensures Valid() && Reads(pager.mmu, va) == Some(b)
      ensures Stepped(old(Now()), Write(va, b), Now())
    {
      hide *;
      ghost var m := Now();
      GoodNow();
      MemOf(pager.mmu);
      ValidMeans();
      UserStore(pager, va, b);
      ValidMeans();
      GoodNow();
      ReadsIs(va);
      Written(m, Now(), va, b);
    }

    lemma ReadsIs(va: nat)
      ensures Reads(pager.mmu, va) == AccessByte(Now(), va)
    {
      hide Walk, PageAt, FrameOf, InPage, PageNo, Pager.Lists, RunQueue.Abs, RunQueue.Saved;
      MemOf(pager.mmu);
    }

    /** With a thread running, both workspaces are in place. */
    lemma ChargedInPlace(p: nat)
      requires Valid()
      ensures queue.currentThread != null ==> pager.ChargedTo(p) != null
      ensures pager.ChargedTo(p) == (if p <= SPLIT_PAGE then pager.codeWs else pager.stackWs)
    {
      hide Pager.Valid, RunQueue.Linked, AllHoused, Whole, RunQueue.Abs;
    }

    lemma ValidMeans()
      ensures Valid() <==>
                && pager.Valid()
                && queue.Linked()
                && AllHoused(queue.ring, pager.spaces, pager.stacks)
                && Whole(queue.Abs())
                && InCharge(queue.Running(), pager.codeWs, pager.stackWs)
    {
      hide Pager.Valid, RunQueue.Linked, AllHoused, InCharge, RunQueue.Running, Whole, RunQueue.Abs;
    }

    lemma GoodNow()
      requires Valid()
      ensures Good(Now()) && Sound(Frames()) && Frames() == pager.mmu.Snap()
      ensures Now().lists == pager.Lists() && Now().owner == pager.owner && Now().snap == Frames()
      ensures Now().sched == queue.Abs() && Now().saved == queue.Saved() && Now().tlb == pager.mmu.tlb
      ensures Now().code == pager.codeWs && Now().stack == pager.stackWs && Now().stacks == pager.stacks
    {
      hide Consistent, Sound, Mmu.Snap, Mmu.Valid, RunQueue.Linked, AllHoused, InCharge, Whole, LowUnseen;
      FreshWhenNothingStale(pager.mmu);
      PagerParts(pager);
      MemOf(pager.mmu);
      AbsIs(queue);
      assert pager.Lists().Keys == pager.spaces;
    }

    lemma NowIs()
      ensures Now().lists == pager.Lists() && Now().owner == pager.owner && Now().snap == Frames()
      ensures Now().sched == queue.Abs() && Now().saved == queue.Saved() && Now().tlb == pager.mmu.tlb
      ensures Now().code == pager.codeWs && Now().stack == pager.stackWs && Now().stacks == pager.stacks
    {
    }

    lemma ThreadPart(t: Thread)
      requires Valid() && t in queue.ring
      ensures pager.Valid() && queue.Linked() && Housed(t, pager.spaces, pager.stacks) && Whole(queue.Abs())
      ensures queue.currentThread != null ==> queue.currentThread in queue.ring
      ensures AllHoused(queue.ring, pager.spaces, pager.stacks)
    {
      hide Pager.Valid, RunQueue.Linked, Orderly, Whole, AllHoused, InCharge, RunQueue.Abs;
      HousedIn(queue.ring, t, pager.spaces, pager.stacks);
      RunningOnRing(queue.Abs());
      AbsIs(queue);
    }

    lemma ValidAfter(t: Thread, ring: seq<Thread>)
      requires pager.Valid() && queue.Linked() && Whole(queue.Abs())
      requires AllHoused(ring, pager.spaces, pager.stacks) && Members(queue.ring) == Members(ring)
      requires queue.Running() == Some(t) && t in queue.ring && pager.codeWs == t.proc.codeWs
               && pager.stackWs == t.stackWs
      ensures Valid()
    {
      hide Pager.Valid, RunQueue.Linked, Orderly, Whole, RunQueue.Abs;
      assert forall u :: u in queue.ring ==> u in Members(ring);
    }
  }

  lemma CodeReady(m: Mem, w: Workspace, pbase: nat, cd: seq<Byte>, csz: nat, dsz: nat, bsz: nat)
    requires csz + dsz <= |cd| && ImagePages(csz, dsz, bsz) + 0x200 < 0x10_0000 && pbase % 0x1000 == 0
    requires w.extents == [CodeExtent(pbase, ImagePages(csz, dsz, bsz) + 0x200)]
    requires CodeExtent(pbase, ImagePages(csz, dsz, bsz) + 0x200).Good()
    requires ImageIn(m, pbase / 0x1000, cd, csz + dsz, csz + dsz + bsz)
    ensures ImageReady(m, w.extents, cd, csz + dsz, csz + dsz + bsz)
  {
    hide ImageIn, ImageReady, CodeExtent, Extent.Good;
    ImageExtent(csz, dsz, bsz);
    LoadedIsReady(m, pbase, ImagePages(csz, dsz, bsz) + 0x200, cd, csz + dsz, csz + dsz + bsz);
  }

  lemma LoadedList(k: Pager, w: Workspace, pbase: nat, pages: nat)
    requires k.Valid() && w in k.spaces && w.extents == [CodeExtent(pbase, pages)] && 0 < pages
    ensures w in k.Lists() && k.Lists()[w] == w.extents && AllGood(w.extents) && CodeExtent(pbase, pages).Good()
  {
    hide Mmu.Valid, Mmu.Coherent, Mmu.Snap, Owned, InPlace, View, Seated;
    assert w.extents[0] in w.extents;
  }

  lemma OwnedPages(owner: map<nat, Owner>, s: Snapshot, t: Snapshot, w: Workspace)
    requires OwnedKept(owner, s, t)
    ensures FramesOfKept(owner, s.mem, t.mem, w)
  {
    hide PageAt;
  }

  lemma AllListsGood(k: Pager, w: Workspace)
    requires k.Valid() && w in k.spaces
    ensures w in k.Lists() && k.Lists()[w] == w.extents && AllGood(w.extents)
  {
    hide Mmu.Valid, Mmu.Coherent, Mmu.Snap, Owned, InPlace, View, Seated, AllGood;
  }

  lemma StackIsNew(ring: seq<Thread>, spaces: set<Workspace>, stacks: set<Workspace>, w: Workspace)
    requires AllHoused(ring, spaces, stacks) && w !in spaces
    ensures forall u :: u in ring ==> u.stackWs != w
  {
  }

  // ----- what the kernel's operations do, as steps of the machine -----

  lemma Switched(m: Machine, m': Machine, rsp: nat, locked: bool, next: Option<nat>)
    requires Good(m) && Good(m') && m'.lists == m.lists && m'.owner == m.owner && OwnedKept(m.owner, m.snap, m'.snap)
    requires m'.sched == if locked then m.sched else Tick(m.sched)
    requires Resumed(m.sched, locked, m.saved, m'.saved, rsp, next)
    ensures Stepped(m, Interrupt(rsp, locked, next), m')
  {
    hide Good, OwnedKept, Tick, Resumed;
  }

  /** A stack workspace with a return frame joined the machine, and nothing else happened. */
  ghost predicate StackLaid(m: Machine, m1: Machine, w: Workspace, func: nat, flags: nat) {
    && Good(m) && Good(m1) && Grew(m, m1) && SameThreads(m, m1) && m1.code == m.code && m1.stack == m.stack
    && w in m1.lists && EntersAt(m1.snap.mem, m1.lists[w], func, flags)
  }

  /** Thread t put on the ring behind the head, to resume at rsp. */
  ghost function Joined(m: Machine, t: Thread, readyByte: bool, rsp: nat): Machine {
    m.(sched := Spawn(m.sched, t, readyByte), saved := m.saved[t := rsp])
  }

  lemma JoinedIs(m: Machine, m': Machine, t: Thread, readyByte: bool, rsp: nat)
    requires m'.lists == m.lists && m'.stacks == m.stacks && m'.owner == m.owner && m'.snap == m.snap
    requires m'.tlb == m.tlb && m'.code == m.code && m'.stack == m.stack
    requires m'.sched == Spawn(m.sched, t, readyByte) && m'.saved == m.saved[t := rsp]
    ensures m' == Joined(m, t, readyByte, rsp)
  {
    hide Spawn;
  }

  lemma EnteredAfterStack(m: Machine, m1: Machine, m2: Machine, w: Workspace, func: nat, flags: nat,
                          t: Thread, readyByte: bool)
    requires StackLaid(m, m1, w, func, flags) && Good(m2) && t !in m1.sched.ring
    requires m2 == Joined(m1, t, readyByte, FIRST_RSP)
    ensures Stepped(m, Enter(t, readyByte), m2) && m2.snap == m1.snap
    ensures EntersAt(m2.snap.mem, ListOf(m2.lists, w), func, flags)
  {
    hide Good, KeepsOwners, OwnedKept, EntersAt, Spawn;
  }

  lemma GoodStack(p: Pager, w: Workspace, pg: nat)
    requires p.Valid() && w in p.spaces && w.extents == [StackExtent(pg)]
    ensures StackExtent(pg).Good() && p.Lists()[w] == [StackExtent(pg)]
  {
    hide Mmu.Valid, Mmu.Coherent, Mmu.Snap, Owned, InPlace, View, Seated, CoverLow, Extent.Good;
    assert w in p.Lists() && p.Lists()[w] == [StackExtent(pg)];
    assert AllGood(p.Lists()[w]) && StackExtent(pg) in p.Lists()[w];
  }

  /** A code workspace with the image in it joined the machine, and nothing else happened. */
  ghost predicate ProgramLoaded(m: Machine, m1: Machine, w: Workspace, cd: seq<Byte>, ssz: nat, n: nat)
    requires ssz <= |cd|
  {
    && Good(m) && Good(m1) && Grew(m, m1) && SameThreads(m, m1) && SameSeats(m, m1)
    && m1.snap.tables == m.snap.tables && w in m1.lists && w !in m1.stacks
    && ImageReady(m1.snap.mem, m1.lists[w], cd, ssz, n)
  }

  /** What spawn_process comes to, for an image of pgs pages. */
  ghost predicate Outcome(m: Machine, m': Machine, pgs: nat, proc: Process?, thrd: Thread?, readyByte: bool,
                          cd: seq<Byte>, ssz: nat, n: nat, flags: nat, valid: bool)
    requires ssz <= |cd|
  {
    match SpawnFinds(m.snap.regions, pgs)
    case Neither => proc == null && thrd == null && valid && m' == m
    case NoStack => proc == null && thrd == null && FailedHalfWay(m, m', pgs, valid)
    case Both =>
      && thrd != null && proc == thrd.proc && valid
      && Stepped(m, Enter(thrd, readyByte), m') && Prepared(m', thrd, cd, ssz, n, 0x10_0000, flags)
  }

  lemma NoProgram(m: Machine, pgs: nat, readyByte: bool, cd: seq<Byte>, ssz: nat, n: nat, flags: nat)
    requires ssz <= |cd| && Allocated(m.snap.regions, pgs + 0x200).0 == 0
    ensures Outcome(m, m, pgs, null, null, readyByte, cd, ssz, n, flags, true)
  {
    hide Allocated;
  }

  /** Loading and then spawning is one spawn, and the image is still there when the thread is on the
      ring. */
  lemma ProgramEntered(m: Machine, m1: Machine, m2: Machine, pgs: nat, proc: Process, t: Thread, readyByte: bool,
                       cd: seq<Byte>, ssz: nat, n: nat, flags: nat)
    requires ssz <= |cd| && t.proc == proc && ProgramLoaded(m, m1, proc.codeWs, cd, ssz, n)
    requires Stepped(m1, Enter(t, readyByte), m2)
    requires EntersAt(m2.snap.mem, ListOf(m2.lists, t.stackWs), USPACE_BOT, flags)
    requires var (a, rest) := Allocated(m.snap.regions, pgs + 0x200); a != 0 && Allocated(rest, 2).0 != 0
    ensures Outcome(m, m2, pgs, proc, t, readyByte, cd, ssz, n, flags, true)
  {
    hide Good, Grew, Spawn, ImageReady, Sound, EntersAt, Allocated, FailedHalfWay;
    var w := t.proc.codeWs;
    GrewOnwards(m, m1, m2);
    GrewKeeps(m1, m2, w);
    KeptImage(m1, m2, w, cd, ssz, n);
  }

  lemma KeptImage(m: Machine, m': Machine, w: Workspace, cd: seq<Byte>, ssz: nat, n: nat)
    requires Keeps(m, m', w) && ssz <= |cd| && ImageReady(m.snap.mem, m.lists[w], cd, ssz, n)
    ensures ImageReady(m'.snap.mem, m'.lists[w], cd, ssz, n)
  {
    hide Mapped, PageAt, FrameOf, PageNo, InPage, ImageByte;
    forall i: nat | i < n
      ensures ByteIn(m'.snap.mem, m'.lists[w], USPACE_BOT + i) == Some(ImageByte(cd, ssz, i))
    {
      assert ByteIn(m.snap.mem, m.lists[w], USPACE_BOT + i) == Some(ImageByte(cd, ssz, i));
      assert PageBehind(m.snap.mem, m.lists[w], PageNo(USPACE_BOT + i)).Some?;
    }
  }

  lemma FrameEnters(m: Mem, pg: nat, func: nat, flags: nat)
    requires StackExtent(pg).Good() && pg % 0x1000 == 0 && FrameBuilt(m, pg / 0x1000 + 1, func, flags)
    ensures EntersAt(m, [StackExtent(pg)], func, flags)
  {
    hide FrameBuilt, StackExtent, WordIn;
    forall k: nat | k < 5
      ensures WordIn(m, [StackExtent(pg)], FIRST_RSP + 8 * k) == Some(FirstFrame(func, flags)[k])
    {
      FirstFrameSeen(m, pg, func, flags, k);
    }
  }

  /** The workspace that a fault's page is charged to has the page, with the frame at address a. */
  ghost predicate ListsAfterFault(m: Machine, m': Machine, cr2: nat, a: nat) {
    && SameSeats(m, m')
    && m'.lists == if cr2 > KSPACE_LOC then m.lists
                   else Charged(m.lists, if PageNo(cr2) <= SPLIT_PAGE then m.code else m.stack, PageNo(cr2), a)
  }

  lemma ServedWhen(s: Snapshot, owner: map<nat, Owner>, t: Snapshot, owner': map<nat, Owner>, vp: nat, a: nat,
                   who: Owner, valid: bool)
    requires FaultOutcome(s, owner, t, owner', vp, a, who, valid)
    ensures Serves(s, owner, vp, who) ==> valid && OwnersKept(owner, owner', s, t)
  {
    hide Faulted, Serves, OwnersKept;
  }

  lemma FaultIsServed(m: Machine, m': Machine, cr2: nat, a: nat)
    requires Good(m) && Good(m') && SameThreads(m, m') && ListsAfterFault(m, m', cr2, a)
    requires FaultAt(m.snap, cr2) && OwnersKept(m.owner, m'.owner, m.snap, m'.snap)
    requires cr2 <= KSPACE_LOC ==>
               USER_FIRST <= PageNo(cr2) < USER_LIMIT && (if PageNo(cr2) <= SPLIT_PAGE then m.code else m.stack) != null
    ensures Stepped(m, Fault(PageNo(cr2), a), m')
  {
    hide Good, Walk, FaultExtent, Added, PageAt, TablesLeft;
    if cr2 > KSPACE_LOC {
      KernelHalf(cr2);
    } else {
      PlaceHasList(m, if PageNo(cr2) <= SPLIT_PAGE then m.code else m.stack);
    }
  }

  lemma PlaceHasList(m: Machine, w: Workspace)
    requires Good(m) && (w == m.code || w == m.stack)
    ensures w in m.lists && m.lists[w] != []
  {
    hide Sound, Owned, View, InPlace, CoverLow, AllGood, Fresh, AllHoused, InCharge, Whole;
  }

  lemma KernelHalf(cr2: nat)
    requires cr2 > KSPACE_LOC
    ensures PageNo(cr2) >= USER_LIMIT
  {
  }

  lemma Written(m: Machine, m': Machine, va: nat, b: Byte)
    requires Good(m) && Good(m') && m'.lists == m.lists && m'.owner == m.owner
    requires m'.sched == m.sched && m'.saved == m.saved
    requires UserMay(m.snap.mem, PageNo(va)) && AccessByte(m', va) == Some(b)
    requires OthersUntouched(m.owner, m.snap, m'.snap, m.code, m.stack, PageNo(va))
    ensures Stepped(m, Write(va, b), m')
  {
    hide UserMay, PageNo, Good, AccessByte, OthersUntouched;
  }

  lemma Still(m: Machine, recycled: nat)
    requires Good(m)
    ensures Stepped(m, Spawning(null, recycled), m)
  {
    hide Good, PageAt;
  }

  lemma EnteringIs(t: Thread, recycled: nat)
    ensures Spawning(t, recycled) == Enter(t, recycled == READY)
  {
  }

  /** Addresses at which a program is entered. */
  lemma EntryPoints()
    ensures 0 <= FIRST_RSP && 0 <= USPACE_BOT < WORD_LIMIT
  {
  }

  lemma HousedWith(t: Thread, spaces: set<Workspace>, stacks: set<Workspace>)
    requires t.proc.codeWs in spaces && t.proc.codeWs !in stacks && t.stackWs in spaces && t.stackWs in stacks
    ensures Housed(t, spaces, stacks)
  {
  }

  ghost function Spawning(thrd: Thread?, recycled: nat): Action {
    if thrd == null then Quiet else Enter(thrd, recycled == READY)
  }

  lemma GrewOnwards(m: Machine, m1: Machine, m2: Machine)
    requires Grew(m, m1) && Grew(m1, m2)
    ensures Grew(m, m2)
  {
    hide PageAt;
  }

  /** What spawn_process finds on the list: pages for the program and for a stack, or not. */
  datatype Found = Neither | NoStack | Both

  function SpawnFinds(rs: seq<Region>, pgs: nat): Found {
    var (a, rest) := Allocated(rs, pgs + 0x200);
    if a == 0 then Neither else if Allocated(rest, 2).0 == 0 then NoStack else Both
  }

  lemma HousedBefore(m: Machine, m1: Machine)
    requires Good(m) && SameThreads(m, m1) && SameSeats(m, m1)
    ensures AllHoused(m1.sched.ring, m.lists.Keys, m1.stacks)
            && Consistent(m.lists, m1.stacks, m.owner, m.snap, m1.code, m1.stack)
    ensures Whole(m1.sched) && InCharge(m1.sched.current, m1.code, m1.stack)
  {
    hide Consistent, AllHoused, InCharge, Whole, Fresh;
  }

  lemma NothingMore(m: Machine, m': Machine)
    requires Good(m) && Good(m') && m'.lists == m.lists && m'.owner == m.owner && SameThreads(m, m')
    requires OwnedKept(m.owner, m.snap, m'.snap)
    ensures Stepped(m, Quiet, m')
  {
    hide Good, OwnedKept;
  }

  lemma KeptSameMem(m: Machine, m1: Machine, m2: Machine)
    requires OwnedKept(m.owner, m.snap, m1.snap) && m2.snap.mem == m1.snap.mem
    ensures OwnedKept(m.owner, m.snap, m2.snap)
  {
    hide PageAt;
  }

  /** A spawn that failed for want of a stack: as many bytes as the image has pages went back to the
      list, the other pages of the program are lost; the machine is sound if and only if memory still
      comes in whole frames. */
  ghost predicate FailedHalfWay(m: Machine, m': Machine, pgs: nat, valid: bool) {
    var (a, rest) := Allocated(m.snap.regions, pgs + 0x200);
    && m'.lists == m.lists && m'.owner == m.owner && SameSeats(m, m') && SameThreads(m, m')
    && OwnedKept(m.owner, m.snap, m'.snap)
    && m'.snap.regions == Freed(rest, a, pgs) && (valid <==> FreedInPages(rest, a, pgs))
    && (valid ==> Stepped(m, Quiet, m'))
  }

  ghost predicate SameSeats(m: Machine, m': Machine) {
    m'.code == m.code && m'.stack == m.stack && m'.stacks == m.stacks
  }

  lemma HeadIn(q: RunQueue)
    requires q.Linked()
    ensures q.headThread != null ==> q.headThread in q.ring
  {
  }

  lemma MoreSpaces(ring: seq<Thread>, spaces: set<Workspace>, stacks: set<Workspace>,
                   spaces': set<Workspace>, stacks': set<Workspace>)
    requires AllHoused(ring, spaces, stacks) && spaces <= spaces' && stacks <= stacks'
    requires forall w :: w in spaces ==> (w in stacks' <==> w in stacks)
    ensures AllHoused(ring, spaces', stacks')
  {
  }

  lemma MoreHoused(ring: seq<Thread>, t: Thread, spaces: set<Workspace>, stacks: set<Workspace>)
    requires AllHoused(ring, spaces, stacks) && Housed(t, spaces, stacks)
    requires forall u :: u in ring ==> u.stackWs != t.stackWs
    ensures AllHoused(Inserted(ring, t), spaces, stacks) && forall u :: u in ring ==> u in Inserted(ring, t)
  {
    InsertedMembers(ring, t);
  }

  /** The ring after the first half of a switch, and the scheduler after the second. */
  ghost function HalfTicked(s: Sched<Thread>, k: nat): Sched<Thread>
    requires k < |s.ring|
  {
    Sched(Rotated(s.ring, k + 1), s.current, s.ready - {s.ring[k]})
  }

  ghost function Departed(s: Sched<Thread>, t: Thread): Sched<Thread> {
    Sched(s.ring, Some(t), s.ready + if s.current.Some? then {s.current.value} else {})
  }

  lemma RingMembers(ring: seq<Thread>, was: seq<Thread>)
    requires Members(ring) == Members(was)
    ensures forall t :: t in was ==> t in ring
    ensures forall t :: t in ring ==> t in was
  {
    assert forall t :: t in ring ==> t in Members(was);
    assert forall t :: t in was ==> t in Members(ring);
  }

  ghost function Members(ring: seq<Thread>): set<Thread> {
    set t | t in ring
  }

  lemma HousedIn(ring: seq<Thread>, t: Thread, spaces: set<Workspace>, stacks: set<Workspace>)
    requires AllHoused(ring, spaces, stacks) && t in ring
    ensures Housed(t, spaces, stacks)
  {
  }

  lemma RunningOnRing<T>(s: Sched<T>)
    requires Whole(s)
    ensures s.current.Some? ==> s.current.value in s.ring
  {
    hide Distinct;
  }

  lemma AbsIs(q: RunQueue)
    ensures q.Abs().ring == q.ring && q.Abs().current == q.Running()
    ensures forall t :: t in q.Abs().ready <==> t in q.ring && t.state == READY
  {
  }

  lemma TickIs(s: Sched<Thread>, k: nat)
    requires k == FirstReady(s.ring, s.ready) && k < |s.ring| && Whole(s)
    ensures Tick(s) == Departed(HalfTicked(s, k), s.ring[k])
    ensures s.ring[k] in s.ready && s.current != Some(s.ring[k])
    ensures Whole(Tick(s))
    ensures Members(Rotated(s.ring, k + 1)) == Members(s.ring)
  {
    TickWhole(s);
    RotatedMembers(s.ring, k + 1);
  }

  lemma SavedAt(q: RunQueue, t: Thread)
    requires t in q.ring
    ensures t in q.Saved() && q.Saved()[t] == t.rsp
  {
  }

  lemma ResumedAfter(s: Sched<Thread>, k: nat, was: map<Thread, nat>, now: map<Thread, nat>, rsp: nat, next: nat)
    requires k == FirstReady(s.ring, s.ready) && k < |s.ring| && s.current != Some(s.ring[k])
    requires now == Resaved(was, s.current, rsp) && s.ring[k] in now && next == now[s.ring[k]]
    ensures Resumed(s, false, was, now, rsp, Some(next))
  {
    hide FirstReady;
  }

  lemma StaysAsItWas(s: Sched<Thread>, locked: bool, was: map<Thread, nat>, rsp: nat, owner: map<nat, Owner>,
                     snap: Snapshot)
    requires locked || FirstReady(s.ring, s.ready) == |s.ring|
    ensures Resumed(s, locked, was, was, rsp, None) && OwnedKept(owner, snap, snap)
    ensures !locked ==> Tick(s) == s
  {
  }

  lemma RoomForNext(s: Sched<Thread>, lists: Lists, owner: map<nat, Owner>, snap: Snapshot, t: Thread)
    requires RoomToSwitch(s, lists, owner, snap)
    requires var k := FirstReady(s.ring, s.ready); k < |s.ring| && t == s.ring[k]
    ensures var code, stack := TablesForAll(ListOf(lists, t.proc.codeWs)), TablesForAll(ListOf(lists, t.stackWs));
            Finds(snap, owner, code + stack) && Finds(snap, owner, code) && Affords(snap, code)
  {
    hide Affords, Finds, TablesForAll, FirstReady;
    var code, stack := TablesForAll(ListOf(lists, t.proc.codeWs)), TablesForAll(ListOf(lists, t.stackWs));
    FindsLess(snap, owner, code + stack, code);
  }

  lemma RoomLeft(s: Snapshot, t: Snapshot, owner: map<nat, Owner>, need: set<Key>, more: set<Key>)
    requires Finds(s, owner, need + more) && Extends(s, t, need)
    ensures Finds(t, owner, more)
  {
    hide Affords, Finds, Extends;
    FindsAfter(s, t, owner, need, more);
  }

  lemma OwnedOf(p: Pager)
    requires p.Valid()
    ensures Owned(p.Lists(), p.owner, p.mmu.Snap())
  {
    hide Owned, Mmu.Valid, Mmu.Coherent, InPlace, View, AllGood;
  }

  lemma ExtendsKeeps(lists: Lists, owner: map<nat, Owner>, s: Snapshot, t: Snapshot, need: set<Key>)
    requires Owned(lists, owner, s) && Extends(s, t, need) && Finds(s, owner, need)
    ensures Owned(lists, owner, t) && OwnedKept(owner, s, t)
  {
    hide Extends, Owned, PageAt, Finds;
    OwnedExtends(lists, owner, s, t, need);
  }

  lemma KeptOnwards(owner: map<nat, Owner>, s: Snapshot, t: Snapshot, u: Snapshot)
    requires OwnedKept(owner, s, t) && OwnedKept(owner, t, u)
    ensures OwnedKept(owner, s, u)
  {
    hide PageAt;
  }

  /** Such bytes occur: an allocation that fits a region exactly gives the region's object back with
      its type where a thread has its state byte.  A thread made of that object is stuck for good. */
  lemma RecycledRegionSticks(rs: seq<Region>, pages: nat, s: Sched<Thread>, t: Thread, es: seq<Event<Thread>>)
    requires var k := FirstFit(rs, RequestBytes(pages)); k < |rs| && rs[k].size == RequestBytes(pages)
    requires Whole(s) && t !in s.ring
    requires NewSpawns(Spawn(s, t, rs[FirstFit(rs, RequestBytes(pages))].kind == READY), es)
    ensures var s' := Spawn(s, t, rs[FirstFit(rs, RequestBytes(pages))].kind == READY);
            !Orderly(s') && Stuck(Scheduler.Run(s', es), t) && !GetsToRun(s', es, t)
  {
    var k := FirstFit(rs, RequestBytes(pages));
    assert rs[k].Fits(RequestBytes(pages));
    SpawnWhole(s, t, false);
    SpawnOrderlyIff(s, t, false);
    StuckForever(Spawn(s, t, false), es, t);
  }
}
