/** Timer interrupts between any two steps of the ring insertion at the end of spawn_thread. */
module SpawnLock {
  import opened Options
  import opened Scheduler

  /** How far the spawner of a thread has got.  The steps are the memory accesses of the insertion:
      take lock bit 1, test head_thread, link, release. */
  datatype PC =
    | Begin
    | Locked
    | SawNone                 // head_thread was null
    | SelfLinked              // next of the new thread is itself
    | GotHead(a: nat)         // read head_thread
    | GotNext(b: nat)         // read its next
    | Stored                  // wrote next of the new thread
    | GotHeadAgain(c: nat)    // read head_thread a second time
    | Linked
    | Done

  predicate Critical(pc: PC) {
    !pc.Begin? && !pc.Done?
  }

  /** Thread t is inserted by spawner t. */
  datatype State = State(head: Option<nat>, next: map<nat, nat>, lock: bool, pcs: map<nat, PC>)

  datatype Choice = Spawner(t: nat) | Interrupt(hops: nat)

  function SpawnerStep(s: State, t: nat): State {
    if t !in s.pcs then s
    else
      match s.pcs[t]
      case Begin => if s.lock then s else s.(lock := true, pcs := s.pcs[t := Locked])
      case Locked =>
        s.(pcs := s.pcs[t := if s.head.None? then SawNone else GotHead(s.head.value)])
      case SawNone => s.(next := s.next[t := t], pcs := s.pcs[t := SelfLinked])
      case SelfLinked => s.(head := Some(t), pcs := s.pcs[t := Linked])
      case GotHead(a) => s.(pcs := s.pcs[t := GotNext(if a in s.next then s.next[a] else a)])
      case GotNext(b) => s.(next := s.next[t := b], pcs := s.pcs[t := Stored])
      case Stored => if s.head.None? then s else s.(pcs := s.pcs[t := GotHeadAgain(s.head.value)])
      case GotHeadAgain(c) => s.(next := s.next[c := t], pcs := s.pcs[t := Linked])
      case Linked => s.(lock := !s.lock, pcs := s.pcs[t := Done])
      case Done => s
  }

  /** n steps along the next pointers. */
  function Hop(next: map<nat, nat>, t: nat, n: nat): nat
    decreases n
  {
    if n == 0 || t !in next then t else Hop(next, next[t], n - 1)
  }

  /** The search of context_switch stopped after some hops; the head moves past the thread found. */
  function MoveHead(s: State, hops: nat): State {
    if s.head.None? then s else s.(head := Some(Hop(s.next, s.head.value, hops + 1)))
  }

  /** context_switch returns early while lock bit 1 is held. */
  function Step(s: State, c: Choice): State {
    match c
    case Spawner(t) => SpawnerStep(s, t)
    case Interrupt(hops) => if s.lock then s else MoveHead(s, hops)
  }

  function Run(s: State, cs: seq<Choice>): State
    decreases |cs|
  {
    if cs == [] then s else Run(Step(s, cs[0]), cs[1..])
  }

  // ----- the invariant -----

  function Succ(ring: seq<nat>, i: nat): nat
    requires i < |ring|
  {
    if i + 1 < |ring| then ring[i + 1] else ring[0]
  }

  /** next links the ring into one cycle that starts at the head. */
  ghost predicate Cycle(head: Option<nat>, next: map<nat, nat>, ring: seq<nat>) {
    && Distinct(ring)
    && head == (if ring == [] then None else Some(ring[0]))
    && (forall i {:trigger ring[i]} :: 0 <= i < |ring| ==> ring[i] in next && next[ring[i]] == Succ(ring, i))
  }

  /** What the spawner in its critical section has read and written so far. */
  ghost predicate InStep(s: State, ring: seq<nat>, t: nat)
    requires t in s.pcs
  {
    match s.pcs[t]
    case SawNone => ring == []
    case SelfLinked => ring == [] && t in s.next && s.next[t] == t
    case GotHead(a) => ring != [] && a == ring[0]
    case GotNext(b) => ring != [] && b == Succ(ring, 0)
    case Stored => ring != [] && t in s.next && s.next[t] == Succ(ring, 0)
    case GotHeadAgain(c) => ring != [] && c == ring[0] && t in s.next && s.next[t] == Succ(ring, 0)
    case _ => true
  }

  /** The ring is one cycle of exactly the threads whose insertion is finished (or was never
      pending), and the lock is held by exactly the spawner in its critical section. */
  ghost predicate Good(s: State, ring: seq<nat>) {
    && Cycle(s.head, s.next, ring)
    && (forall t :: t in s.pcs ==> (t in ring <==> s.pcs[t].Linked? || s.pcs[t].Done?))
    && (forall t, u :: t in s.pcs && u in s.pcs && Critical(s.pcs[t]) && Critical(s.pcs[u]) ==> t == u)
    && (s.lock <==> exists t :: t in s.pcs && Critical(s.pcs[t]))
    && (forall t :: t in s.pcs ==> InStep(s, ring, t))
  }

  /** The ring after a choice. */
  ghost function RingAfter(s: State, ring: seq<nat>, c: Choice): seq<nat> {
    match c
    case Spawner(t) =>
      if t in s.pcs && (s.pcs[t].SelfLinked? || s.pcs[t].GotHeadAgain?) then Inserted(ring, t) else ring
    case Interrupt(hops) =>
      if s.lock then ring else Turned(ring, hops + 1)
  }

  /** The ring turned n places. */
  ghost function Turned(ring: seq<nat>, n: nat): seq<nat>
    decreases n
  {
    if n == 0 || ring == [] then ring else Turned(Rotated(ring, 1), n - 1)
  }

  lemma TurnOnce(next: map<nat, nat>, ring: seq<nat>)
    requires ring != [] && Cycle(Some(ring[0]), next, ring)
    ensures Cycle(Some(next[ring[0]]), next, Rotated(ring, 1)) && next[ring[0]] == Rotated(ring, 1)[0]
    ensures forall t :: t in Rotated(ring, 1) <==> t in ring
  {
    RotatedMembers(ring, 1);
    var r := Rotated(ring, 1);
    assert next[ring[0]] == Succ(ring, 0);
    forall i {:trigger r[i]} | 0 <= i < |r|
      ensures r[i] in next && next[r[i]] == Succ(r, i)
    {
      assert r[i] == ring[if i + 1 < |ring| then i + 1 else 0];
    }
  }

  /** Hopping along a cycle turns it. */
  lemma {:induction false} HopTurns(next: map<nat, nat>, ring: seq<nat>, n: nat)
    requires ring != [] && Cycle(Some(ring[0]), next, ring)
    ensures Cycle(Some(Hop(next, ring[0], n)), next, Turned(ring, n))
    ensures forall t :: t in Turned(ring, n) <==> t in ring
    decreases n
  {
    if n > 0 {
      TurnOnce(next, ring);
      HopTurns(next, Rotated(ring, 1), n - 1);
    }
  }

  lemma TimerKeepsGood(s: State, ring: seq<nat>, hops: nat)
    requires Good(s, ring)
    ensures Good(Step(s, Interrupt(hops)), RingAfter(s, ring, Interrupt(hops)))
  {
    if !s.lock && ring != [] {
      HopTurns(s.next, ring, hops + 1);
      assert forall t :: t in s.pcs ==> !Critical(s.pcs[t]);
    }
  }

  /** A step that moves spawner t only and leaves the ring alone. */
  lemma QuietStep(s: State, s': State, ring: seq<nat>, t: nat, pc: PC, b: nat)
    requires Good(s, ring) && t in s.pcs && s' == s.(next := s'.next, lock := s'.lock, pcs := s.pcs[t := pc])
    requires s'.next == s.next || (t !in ring && s'.next == s.next[t := b])
    requires (s.pcs[t].Linked? || s.pcs[t].Done?) <==> (pc.Linked? || pc.Done?)
    requires !s.pcs[t].Done? && (Critical(pc) || s.pcs[t].Linked?)
    requires s'.lock == Critical(pc) && (s.pcs[t].Begin? ==> !s.lock)
    requires InStep(s', ring, t)
    ensures Good(s', ring)
  {
    assert forall u :: u in s.pcs && u != t ==> s'.pcs[u] == s.pcs[u];
    assert t in s'.pcs;
    if Critical(s.pcs[t]) || s.pcs[t].Begin? {
      forall u | u in s'.pcs && u != t
        ensures !Critical(s'.pcs[u])
      {
        assert s'.pcs[u] == s.pcs[u];
        if s.pcs[t].Begin? { assert !s.lock; }
      }
    }
  }

  /** The two stores that bring thread t into the ring. */
  lemma LinkStep(s: State, ring: seq<nat>, t: nat)
    requires Good(s, ring) && t in s.pcs && (s.pcs[t].SelfLinked? || s.pcs[t].GotHeadAgain?)
    ensures Good(Step(s, Spawner(t)), Inserted(ring, t))
  {
    hide Cycle, Inserted;
    var s' := Step(s, Spawner(t));
    LinkedCycle(s, ring, t);
    InsertedMembers(ring, t);
    assert forall u :: u in s.pcs && u != t ==> s'.pcs[u] == s.pcs[u] && !Critical(s.pcs[u]);
    assert t in s'.pcs && Critical(s'.pcs[t]);
  }

  lemma LinkedCycle(s: State, ring: seq<nat>, t: nat)
    requires Good(s, ring) && t in s.pcs && (s.pcs[t].SelfLinked? || s.pcs[t].GotHeadAgain?)
    ensures var s' := Step(s, Spawner(t)); Cycle(s'.head, s'.next, Inserted(ring, t))
  {
    var s', r := Step(s, Spawner(t)), Inserted(ring, t);
    InsertedMembers(ring, t);
    assert InStep(s, ring, t) && t !in ring;
    forall i {:trigger r[i]} | 0 <= i < |r|
      ensures r[i] in s'.next && s'.next[r[i]] == Succ(r, i)
    {
      if i >= 2 {
        assert r[i] == ring[i - 1] && Succ(r, i) == Succ(ring, i - 1);
      }
    }
  }

  lemma SpawnerKeepsGood(s: State, ring: seq<nat>, t: nat)
    requires Good(s, ring)
    ensures Good(Step(s, Spawner(t)), RingAfter(s, ring, Spawner(t)))
  {
    if t in s.pcs {
      var pc, s' := s.pcs[t], Step(s, Spawner(t));
      assert InStep(s, ring, t);
      if pc.SelfLinked? || pc.GotHeadAgain? {
        LinkStep(s, ring, t);
      } else if s' != s {
        QuietStep(s, s', ring, t, s'.pcs[t], if t in s'.next then s'.next[t] else 0);
      }
    }
  }

  /** Whatever the interleaving of spawners and timer interrupts, the ring stays one cycle. */
  lemma {:induction false} RunKeepsGood(s: State, ring: seq<nat>, cs: seq<Choice>) returns (ring': seq<nat>)
    requires Good(s, ring)
    ensures Good(Run(s, cs), ring')
    ensures forall t :: t in ring ==> t in ring'
    decreases |cs|
  {
    if cs == [] {
      ring' := ring;
    } else {
      match cs[0] {
        case Spawner(t) =>
          SpawnerKeepsGood(s, ring, t);
          InsertedMembers(ring, t);
        case Interrupt(hops) =>
          TimerKeepsGood(s, ring, hops);
          if ring != [] { HopTurns(s.next, ring, hops + 1); }
      }
      ring' := RunKeepsGood(Step(s, cs[0]), RingAfter(s, ring, cs[0]), cs[1..]);
    }
  }

  /** ... so whenever an interrupt gets past the lock test, it sees a cycle of every thread whose
      insertion is complete, and of no other pending one. */
  lemma InterruptsSeeWholeRing(s: State, ring: seq<nat>, cs: seq<Choice>) returns (ring': seq<nat>)
    requires Good(s, ring)
    ensures var s' := Run(s, cs);
            !s'.lock ==>
              && Cycle(s'.head, s'.next, ring')
              && (forall t :: t in ring ==> t in ring')
              && (forall t :: t in s'.pcs ==> (t in ring' <==> s'.pcs[t].Done?))
  {
    ring' := RunKeepsGood(s, ring, cs);
    var s' := Run(s, cs);
    assert !s'.lock ==> forall t :: t in s'.pcs ==> !Critical(s'.pcs[t]);
  }

  // ----- what the lock test is for -----

  /** The same machine with an interrupt that does not test the lock. */
  function RunUntested(s: State, cs: seq<Choice>): State
    decreases |cs|
  {
    if cs == [] then s
    else RunUntested(UntestedStep(s, cs[0]), cs[1..])
  }

  lemma {:induction false} OneIsGone(next: map<nat, nat>, t: nat, n: nat)
    requires next == map[1 := 2, 2 := 3, 3 := 2] && (t == 2 || t == 3)
    ensures Hop(next, t, n) != 1
    decreases n
  {
    if n > 0 { OneIsGone(next, next[t], n - 1); }
  }

  /** The new thread 3 has read the head, thread 1, and its successor, thread 2. */
  lemma FirstSteps(s: State, s3: State)
    requires s == State(Some(1), map[1 := 2, 2 := 1], false, map[3 := Begin])
    requires s3 == State(Some(1), map[1 := 2, 2 := 1], true, map[3 := GotNext(2)])
    ensures UntestedStep(UntestedStep(UntestedStep(s, Spawner(3)), Spawner(3)), Spawner(3)) == s3
    ensures Good(s, [1, 2])
  {
    assert InStep(s, [1, 2], 3);
  }

  /** It stores its own link; the interrupt moves the head to thread 2; it reads the head again. */
  lemma MiddleSteps(s3: State, s6: State)
    requires s3 == State(Some(1), map[1 := 2, 2 := 1], true, map[3 := GotNext(2)])
    requires s6 == State(Some(2), map[1 := 2, 2 := 1, 3 := 2], true, map[3 := GotHeadAgain(2)])
    ensures UntestedStep(UntestedStep(UntestedStep(s3, Spawner(3)), Interrupt(0)), Spawner(3)) == s6
  {
    var s4 := s3.(next := s3.next[3 := 2], pcs := map[3 := Stored]);
    assert UntestedStep(s3, Spawner(3)) == s4;
    assert Hop(s4.next, 1, 1) == 2;
    assert UntestedStep(s4, Interrupt(0)) == s4.(head := Some(2));
  }

  /** It overwrites the link of thread 2, the only way to thread 1. */
  lemma LastSteps(s6: State, s8: State)
    requires s6 == State(Some(2), map[1 := 2, 2 := 1, 3 := 2], true, map[3 := GotHeadAgain(2)])
    requires s8 == State(Some(2), map[1 := 2, 2 := 3, 3 := 2], false, map[3 := Done])
    ensures UntestedStep(UntestedStep(s6, Spawner(3)), Spawner(3)) == s8
  {
  }

  /** Without the test, an interrupt between the two link writes loses a thread: from a ring of
      two threads, inserting a third can leave the first unreachable. */
  lemma WithoutTestAThreadIsLost() returns (s: State, cs: seq<Choice>)
    ensures Good(s, [1, 2]) && s.pcs == map[3 := Begin]
    ensures var s' := RunUntested(s, cs);
            && s'.head.Some? && 3 in s'.pcs && s'.pcs[3] == Done
            && forall n: nat :: Hop(s'.next, s'.head.value, n) != 1
  {
    hide UntestedStep, Good, RunUntested;
    s := State(Some(1), map[1 := 2, 2 := 1], false, map[3 := Begin]);
    var s3 := State(Some(1), map[1 := 2, 2 := 1], true, map[3 := GotNext(2)]);
    var s6 := State(Some(2), map[1 := 2, 2 := 1, 3 := 2], true, map[3 := GotHeadAgain(2)]);
    var s8 := State(Some(2), map[1 := 2, 2 := 3, 3 := 2], false, map[3 := Done]);
    FirstSteps(s, s3);
    MiddleSteps(s3, s6);
    LastSteps(s6, s8);
    cs := [Spawner(3), Spawner(3), Spawner(3), Spawner(3), Interrupt(0), Spawner(3), Spawner(3), Spawner(3)];
    ThreeSteps(s, cs, s3);
    ThreeSteps(s3, cs[3..], s6);
    TwoSteps(s6, cs[3..][3..], s8);
    forall k: nat
      ensures Hop(s8.next, 2, k) != 1
    {
      OneIsGone(s8.next, 2, k);
    }
  }

  function UntestedStep(s: State, c: Choice): State {
    match c
    case Spawner(t) => SpawnerStep(s, t)
    case Interrupt(hops) => MoveHead(s, hops)
  }

  lemma ThreeSteps(s: State, cs: seq<Choice>, s3: State)
    requires 3 <= |cs|
    requires s3 == UntestedStep(UntestedStep(UntestedStep(s, cs[0]), cs[1]), cs[2])
    ensures RunUntested(s, cs) == RunUntested(s3, cs[3..])
  {
    hide UntestedStep;
    assert cs[1..][1..] == cs[2..] && cs[1..][1..][1..] == cs[3..];
    assert RunUntested(s, cs) == RunUntested(UntestedStep(s, cs[0]), cs[1..]);
    assert RunUntested(UntestedStep(s, cs[0]), cs[1..])
           == RunUntested(UntestedStep(UntestedStep(s, cs[0]), cs[1]), cs[1..][1..]);
  }

  lemma TwoSteps(s: State, cs: seq<Choice>, s2: State)
    requires |cs| == 2 && s2 == UntestedStep(UntestedStep(s, cs[0]), cs[1])
    ensures RunUntested(s, cs) == s2
  {
    hide UntestedStep;
    assert RunUntested(s, cs) == RunUntested(UntestedStep(s, cs[0]), cs[1..]);
    assert cs[1..][1..] == [];
  }
}
