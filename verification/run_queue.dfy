/** The thread list as linked objects, and the two operations on it. */
module RunQueues {
  import opened Options
  import opened Scheduler
  import opened Workspaces

  const READY := 0
  /** What context_switch stores for the thread it starts. */
  const STARTED := 1

  class Process {
    const codeWs: Workspace
    var next: Process?

    constructor (codeWs: Workspace)
      ensures this.codeWs == codeWs && next == null
    {
      this.codeWs, next := codeWs, null;
    }
  }

  class Thread {
    var state: nat
    var rsp: nat
    var next: Thread?
    const proc: Process
    const stackWs: Workspace

    /** The state byte is left as the recycled object had it. */
    constructor (proc: Process, stackWs: Workspace, rsp: nat, recycled: nat)
      ensures this.proc == proc && this.stackWs == stackWs && this.rsp == rsp && state == recycled && next == null
    {
      this.proc, this.stackWs, this.rsp, state, next := proc, stackWs, rsp, recycled, null;
    }
  }

  class RunQueue {
    var headThread: Thread?
    var currentThread: Thread?
    ghost var ring: seq<Thread>

    constructor ()
      ensures Linked() && ring == [] && currentThread == null
    {
      headThread, currentThread, ring := null, null, [];
    }

    ghost function After(i: nat): Thread
      requires i < |ring|
      reads this
    {
      if i + 1 < |ring| then ring[i + 1] else ring[0]
    }

    /** The next pointers make one cycle out of the ring, starting at the head. */
    ghost predicate Linked()
      reads this, ring
    {
      && headThread == (if ring == [] then null else ring[0])
      && (forall i {:trigger ring[i].next} :: 0 <= i < |ring| ==> ring[i].next == After(i))
      && Distinct(ring)
    }

    ghost function Running(): Option<Thread>
      reads this
    {
      if currentThread == null then None else var t: Thread := currentThread; Some(t)
    }

    ghost function Abs(): Sched<Thread>
      reads this, ring
    {
      Sched(ring, Running(), set t | t in ring && t.state == 0)
    }

    /** The stack pointers at which the threads resume. */
    ghost function Saved(): map<Thread, nat>
      reads this, ring
    {
      map t | t in ring :: t.rsp
    }

    /** The search loop of context_switch: the first ready thread from the head on, if any. */
    method Search() returns (t: Thread?)
      requires Linked()
      ensures var k := FirstReady(ring, Abs().ready); t == if k < |ring| then ring[k] else null
    {
      if headThread == null { return null; }
      t := headThread;
      ghost var k := 0;
      while t.state != READY
        invariant k < |ring| && t == ring[k]
        invariant forall i :: 0 <= i < k ==> ring[i] !in Abs().ready
        decreases |ring| - k
      {
        t := t.next;
        if t == headThread {
          assert k == |ring| - 1;
          assert FirstReady(ring, Abs().ready) == |ring|;
          return null;
        }
        k := k + 1;
      }
      assert k == FirstReady(ring, Abs().ready);
    }

    /** Make the thread found the head's predecessor: mark it started and move the head past it. */
    method Start(t: Thread, ghost k: nat)
      requires Linked() && k < |ring| && t == ring[k]
      modifies this`headThread, this`ring, t`state
      ensures Linked() && ring == Rotated(old(ring), k + 1)
      ensures t.state == 1 && Saved() == old(Saved())
      ensures Abs() == Sched(Rotated(old(ring), k + 1), old(Running()), old(Abs().ready) - {t})
    {
      t.state := STARTED;
      headThread := t.next;
      ring := Rotated(ring, k + 1);
      RotatedMembers(old(ring), k + 1);
      forall i {:trigger ring[i].next} | 0 <= i < |ring|
        ensures ring[i].next == After(i)
      {
        var n := |ring|;
        var j := if i + k + 1 < n then i + k + 1 else i + k + 1 - n;
        assert ring[i] == old(ring)[j];
      }
    }

    ghost function CurrentOr(t: Thread): Thread
      reads this
    {
      if currentThread == null then t else currentThread
    }

    /** The thread that was running becomes ready again, to resume at rsp; t is the running one. */
    method Depart(t: Thread, rsp: nat)
      requires Linked() && t in ring && t.state != READY && t != currentThread
      requires currentThread != null ==> currentThread in ring
      modifies this`currentThread, CurrentOr(t)`state, CurrentOr(t)`rsp
      ensures Linked()
      ensures Abs() == Sched(old(ring), Some(t),
              old(Abs().ready) + if old(Running()).Some? then {old(Running()).value} else {})
      ensures Saved() == match old(Running()) case None => old(Saved()) case Some(u) => old(Saved())[u := rsp]
      ensures t.rsp == old(t.rsp)
    {
      if currentThread != null {
        currentThread.state := READY;
        currentThread.rsp := rsp;
      }
      currentThread := t;
    }

    ghost function HeadOr(t: Thread): Thread
      reads this
    {
      if headThread == null then t else headThread
    }

    /** The insertion at the end of spawn_thread. */
    method Insert(thrd: Thread)
      requires Linked() && thrd !in ring
      modifies this`headThread, this`ring, thrd`next, HeadOr(thrd)`next
      ensures Linked() && Abs() == Spawn(old(Abs()), thrd, thrd.state == READY)
      ensures currentThread == old(currentThread) && ring == Inserted(old(ring), thrd)
    {
      if headThread == null {
        thrd.next := thrd;
        headThread := thrd;
        ring := [thrd];
      } else {
        thrd.next := headThread.next;
        headThread.next := thrd;
        ring := [ring[0], thrd] + ring[1..];
      }
      InsertedMembers(old(ring), thrd);
      assert forall i :: 2 <= i < |ring| ==> ring[i] == old(ring)[i - 1];
    }
  }

  /** The list of all processes: the same kind of ring, entered at head_process. */
  class ProcessRing {
    var headProcess: Process?
    /** Bit 0 of procthrd_lock. */
    var locked: bool
    ghost var ring: seq<Process>

    constructor ()
      ensures Linked() && ring == [] && !locked
    {
      headProcess, locked, ring := null, false, [];
    }

    ghost function After(i: nat): Process
      requires i < |ring|
      reads this
    {
      if i + 1 < |ring| then ring[i + 1] else ring[0]
    }

    ghost predicate Linked()
      reads this, ring
    {
      && headProcess == (if ring == [] then null else ring[0])
      && (forall i {:trigger ring[i].next} :: 0 <= i < |ring| ==> ring[i].next == After(i))
      && Distinct(ring)
    }

    /** The insertion at the end of spawn_process, under lock bit 0. */
    method Insert(proc: Process)
      requires Linked() && proc !in ring && !locked
      modifies this, ring, proc
      ensures Linked() && ring == Inserted(old(ring), proc) && !locked
    {
      locked := true;
      if headProcess == null {
        proc.next := proc;
        headProcess := proc;
        ring := [proc];
      } else {
        proc.next := headProcess.next;
        headProcess.next := proc;
        ring := [ring[0], proc] + ring[1..];
      }
      InsertedMembers(old(ring), proc);
      assert forall i :: 2 <= i < |ring| ==> ring[i] == old(ring)[i - 1];
      locked := false;
    }
  }
}
