/** The round-robin ring of threads and the order in which they run. */
module Scheduler {
  import opened Options

  /** The scheduler's state: the ring as a sequence that starts at head_thread, the running
      thread, and the threads whose state byte says ready. */
  datatype Sched<T(==)> = Sched(ring: seq<T>, current: Option<T>, ready: set<T>)

  /** Position of the first ready thread from the head on, or |ring|. */
  function FirstReady<T(==)>(ring: seq<T>, ready: set<T>): (k: nat)
    ensures k <= |ring|
    ensures k < |ring| ==> ring[k] in ready
    ensures forall i :: 0 <= i < k ==> ring[i] !in ready
  {
    if ring == [] || ring[0] in ready then 0 else 1 + FirstReady(ring[1..], ready)
  }

  function Rotated<T>(ring: seq<T>, k: nat): seq<T>
    requires k <= |ring|
  {
    ring[k..] + ring[..k]
  }

  /** A timer interrupt: the first ready thread runs, the head moves past it, and the thread that
      was running becomes ready.  With no ready thread nothing changes. */
  function Tick<T(==)>(s: Sched<T>): Sched<T> {
    var k := FirstReady(s.ring, s.ready);
    if k == |s.ring| then s
    else
      var next := s.ring[k];
      Sched(Rotated(s.ring, k + 1), Some(next),
            (s.ready - {next}) + if s.current.Some? then {s.current.value} else {})
  }

  /** A new thread goes in behind the head. */
  function Inserted<T>(ring: seq<T>, t: T): seq<T> {
    if ring == [] then [t] else [ring[0], t] + ring[1..]
  }

  /** spawn_thread puts t into the ring without writing its state byte: whether t is ready is
      whatever the recycled object held. */
  function Spawn<T(==)>(s: Sched<T>, t: T, readyByte: bool): Sched<T> {
    Sched(Inserted(s.ring, t), s.current, if readyByte then s.ready + {t} else s.ready)
  }

  datatype Event<T> = Timer | Spawned(t: T, readyByte: bool)

  function Step<T(==)>(s: Sched<T>, e: Event<T>): Sched<T> {
    match e
    case Timer => Tick(s)
    case Spawned(t, r) => Spawn(s, t, r)
  }

  function Run<T(==)>(s: Sched<T>, es: seq<Event<T>>): Sched<T>
    decreases |es|
  {
    if es == [] then s else Run(Step(s, es[0]), es[1..])
  }

  // ----- what every run keeps -----

  ghost predicate Distinct<T>(ring: seq<T>) {
    forall i, j :: 0 <= i < j < |ring| ==> ring[i] != ring[j]
  }

  /** The ring has no repetition, ready threads and the running one are on it, and the running one is
      not ready. */
  ghost predicate Whole<T>(s: Sched<T>) {
    && Distinct(s.ring)
    && (s.current.Some? ==> s.current.value in s.ring)
    && (forall t :: t in s.ready ==> t in s.ring && s.current != Some(t))
  }

  /** Thread t waits for nothing and yet will never run. */
  ghost predicate Stuck<T>(s: Sched<T>, t: T) {
    t in s.ring && t !in s.ready && s.current != Some(t)
  }

  /** Exactly the running thread is not ready. */
  ghost predicate Orderly<T>(s: Sched<T>) {
    Whole(s) && forall t :: t in s.ring ==> !Stuck(s, t)
  }

  lemma RotatedMembers<T>(ring: seq<T>, k: nat)
    requires k <= |ring|
    ensures forall t :: t in Rotated(ring, k) <==> t in ring
    ensures Distinct(ring) ==> Distinct(Rotated(ring, k))
  {
    assert ring == ring[..k] + ring[k..];
  }

  lemma InsertedMembers<T>(ring: seq<T>, t: T)
    ensures forall u :: u in Inserted(ring, t) <==> u in ring || u == t
    ensures Distinct(ring) && t !in ring ==> Distinct(Inserted(ring, t))
  {
    if ring != [] { assert ring == [ring[0]] + ring[1..]; }
  }

  /** A switch keeps the ring whole, with the same threads on it and the same ones stuck. */
  lemma TickWhole<T>(s: Sched<T>)
    requires Whole(s)
    ensures Whole(Tick(s)) && (forall t :: t in Tick(s).ring <==> t in s.ring)
    ensures forall t :: Stuck(Tick(s), t) <==> Stuck(s, t)
  {
    var k := FirstReady(s.ring, s.ready);
    if k < |s.ring| { RotatedMembers(s.ring, k + 1); }
  }

  lemma TickOrderly<T>(s: Sched<T>)
    requires Whole(s)
    ensures Orderly(Tick(s)) <==> Orderly(s)
  {
    TickWhole(s);
  }

  /** A spawn keeps the ring whole; the new thread is stuck exactly when its recycled state byte did
      not say ready. */
  lemma SpawnWhole<T>(s: Sched<T>, t: T, readyByte: bool)
    requires Whole(s) && t !in s.ring
    ensures Whole(Spawn(s, t, readyByte))
    ensures forall u :: u in Spawn(s, t, readyByte).ring <==> u in s.ring || u == t
    ensures forall u :: Stuck(Spawn(s, t, readyByte), u) <==> Stuck(s, u) || (u == t && !readyByte)
  {
    InsertedMembers(s.ring, t);
  }

  lemma SpawnOrderlyIff<T>(s: Sched<T>, t: T, readyByte: bool)
    requires Whole(s) && t !in s.ring
    ensures Orderly(Spawn(s, t, readyByte)) <==> Orderly(s) && readyByte
  {
    SpawnWhole(s, t, readyByte);
    assert t in Spawn(s, t, readyByte).ring;
  }

  /** Threads spawned during a run are new. */
  ghost predicate NewSpawns<T>(s: Sched<T>, es: seq<Event<T>>)
    decreases |es|
  {
    es == [] || ((es[0].Spawned? ==> es[0].t !in s.ring) && NewSpawns(Step(s, es[0]), es[1..]))
  }

  ghost predicate SpawnedIn<T>(es: seq<Event<T>>, t: T) {
    exists e :: e in es && e.Spawned? && e.t == t
  }

  ghost predicate SpawnedStuck<T>(es: seq<Event<T>>, t: T) {
    Spawned(t, false) in es
  }

  /** Over every run the ring stays one cycle of exactly the threads ever spawned, and exactly those
      are stuck that were, or were spawned with another byte than ready. */
  lemma {:induction false} RunWhole<T>(s: Sched<T>, es: seq<Event<T>>)
    requires Whole(s) && NewSpawns(s, es)
    ensures Whole(Run(s, es))
    ensures forall t :: t in Run(s, es).ring <==> t in s.ring || SpawnedIn(es, t)
    ensures forall t :: Stuck(Run(s, es), t) <==> Stuck(s, t) || SpawnedStuck(es, t)
    decreases |es|
  {
    if es != [] {
      match es[0] {
        case Timer => TickWhole(s);
        case Spawned(t, r) => SpawnWhole(s, t, r);
      }
      var s', rest := Step(s, es[0]), es[1..];
      RunWhole(s', rest);
      assert es == [es[0]] + rest;
      forall t
        ensures SpawnedIn(es, t) <==> SpawnedIn(rest, t) || (es[0].Spawned? && es[0].t == t)
      {
        if SpawnedIn(rest, t) {
          var e :| e in rest && e.Spawned? && e.t == t;
          assert e in es;
        }
        if es[0].Spawned? && es[0].t == t { assert es[0] in es; }
      }
    }
  }

  /** So a run ends with exactly the running thread not ready if and only if it began so and every
      recycled state byte said ready. */
  lemma RunOrderlyIff<T>(s: Sched<T>, es: seq<Event<T>>)
    requires Whole(s) && NewSpawns(s, es)
    ensures Orderly(Run(s, es)) <==> Orderly(s) && forall e :: e in es && e.Spawned? ==> e.readyByte
  {
    RunWhole(s, es);
    var s' := Run(s, es);
    if !Orderly(s) {
      var t :| t in s.ring && Stuck(s, t);
      assert Stuck(s', t) && t in s'.ring;
    }
    forall e | e in es && e.Spawned? && !e.readyByte
      ensures !Orderly(s')
    {
      assert SpawnedStuck(es, e.t) && SpawnedIn(es, e.t);
      assert Stuck(s', e.t) && e.t in s'.ring;
    }
    forall t | Stuck(s', t) && !Stuck(s, t)
      ensures exists e :: e in es && e.Spawned? && !e.readyByte
    {
      assert Spawned(t, false) in es;
    }
  }

  // ----- fairness -----

  function CountTicks<T>(es: seq<Event<T>>): nat {
    if es == [] then 0 else (if es[0].Timer? then 1 else 0) + CountTicks(es[1..])
  }

  /** At some point of the run thread t is the running one. */
  ghost predicate GetsToRun<T>(s: Sched<T>, es: seq<Event<T>>, t: T)
    decreases |es|
  {
    es != [] && (Step(s, es[0]).current == Some(t) || GetsToRun(Step(s, es[0]), es[1..], t))
  }

  /** A switch either runs the ready thread at distance d or brings it closer to the head. */
  lemma TickAdvances<T>(s: Sched<T>, d: nat)
    requires Distinct(s.ring) && d < |s.ring| && s.ring[d] in s.ready
    ensures var t, s' := s.ring[d], Tick(s);
            || s'.current == Some(t)
            || (exists d' :: 0 <= d' < d && d' < |s'.ring| && s'.ring[d'] == t && t in s'.ready)
  {
    var k := FirstReady(s.ring, s.ready);
    var s' := Tick(s);
    if k != d {
      assert s'.ring[d - k - 1] == s.ring[d];
    }
  }

  /** A spawn pushes a waiting thread back by at most one place. */
  lemma SpawnDelays<T>(s: Sched<T>, d: nat, t: T, readyByte: bool)
    requires d < |s.ring|
    ensures var d' := if d == 0 then 0 else d + 1;
            d' < |Inserted(s.ring, t)| && Inserted(s.ring, t)[d'] == s.ring[d]
  {
  }

  /** A ready thread at distance d from the head runs within d+1 switches, plus one for each
      thread spawned in the meantime, over every run, whoever else is stuck. */
  lemma {:induction false} Fair<T>(s: Sched<T>, es: seq<Event<T>>, d: nat)
    requires Distinct(s.ring) && NewSpawns(s, es)
    requires d < |s.ring| && s.ring[d] in s.ready
    requires CountTicks(es) >= d + 1 + (|es| - CountTicks(es))
    ensures GetsToRun(s, es, s.ring[d])
    decreases |es|
  {
    var s', rest := Step(s, es[0]), es[1..];
    match es[0]
    case Timer =>
      TickAdvances(s, d);
      RotatedMembers(s.ring, FirstReady(s.ring, s.ready) + 1);
      if s'.current != Some(s.ring[d]) {
        var d' :| 0 <= d' < d && d' < |s'.ring| && s'.ring[d'] == s.ring[d] && s.ring[d] in s'.ready;
        Fair(s', rest, d');
      }
    case Spawned(t, r) =>
      InsertedMembers(s.ring, t);
      SpawnDelays(s, d, t, r);
      Fair(s', rest, if d == 0 then 0 else d + 1);
  }

  /** A thread that is spawned ready comes in behind the head, so it runs at the second switch at the latest. */
  lemma NewcomerRuns<T>(s: Sched<T>, t: T)
    requires Whole(s) && t !in s.ring
    ensures GetsToRun(Spawn(s, t, true), [Timer, Timer], t)
  {
    var es: seq<Event<T>> := [Timer, Timer];
    SpawnWhole(s, t, true);
    assert es[1..][1..] == [] && CountTicks(es[1..]) == 1;
    var s' := Spawn(s, t, true);
    NoSpawns(s', es);
    var d := if s.ring == [] then 0 else 1;
    assert s'.ring[d] == t;
    Fair(s', es, d);
  }

  lemma {:induction false} NoSpawns<T>(s: Sched<T>, es: seq<Event<T>>)
    requires forall e :: e in es ==> e.Timer?
    ensures NewSpawns(s, es)
    decreases |es|
  {
    if es != [] { NoSpawns(Step(s, es[0]), es[1..]); }
  }

  // ----- turns -----

  function Ticks<T>(n: nat): seq<Event<T>> {
    seq(n, _ => Timer)
  }

  /** After a switch to a thread that one is the last on the ring. */
  lemma RunnerIsLast<T>(s: Sched<T>, t: T)
    requires t in s.ring && t in s.ready
    ensures Tick(s).ring != [] && Tick(s).current == Some(Tick(s).ring[|s.ring| - 1])
  {
    var k := FirstReady(s.ring, s.ready);
    assert exists i :: 0 <= i < |s.ring| && s.ring[i] == t;
    assert Tick(s).ring == s.ring[k + 1..] + s.ring[..k + 1];
  }

  lemma OneTurn<T>(s: Sched<T>)
    requires Orderly(s) && |s.ring| >= 2 && s.current == Some(s.ring[|s.ring| - 1])
    ensures Orderly(Tick(s)) && Tick(s).ring == Rotated(s.ring, 1) && Tick(s).current == Some(s.ring[0])
  {
    assert !Stuck(s, s.ring[0]) && s.ring[0] in s.ready;
    TickOrderly(s);
  }

  lemma TurnedOnce<T>(ring: seq<T>, n: nat)
    requires 0 < n <= |ring|
    ensures var r := Rotated(ring, 1);
            && |r| == |ring| && r[|ring| - 1] == ring[0] && (n > 1 ==> r[n - 2] == ring[n - 1])
            && Rotated(r, n - 1) == Rotated(ring, n)
  {
  }

  lemma NotTurned<T>(ring: seq<T>)
    ensures Rotated(ring, 0) == ring && Rotated(ring, |ring|) == ring
  {
  }

  lemma RunsTick<T>(s: Sched<T>, n: nat)
    ensures Run(s, Ticks(0)) == s && (n > 0 ==> Run(s, Ticks(n)) == Run(Tick(s), Ticks(n - 1)))
  {
    hide Tick;
    if n > 0 { assert Ticks<T>(n)[1..] == Ticks<T>(n - 1); }
  }

  /** While nothing is spawned the threads take turns in the order of the ring. */
  lemma {:induction false} TakingTurns<T>(s: Sched<T>, n: nat)
    requires Orderly(s) && |s.ring| >= 2 && s.current == Some(s.ring[|s.ring| - 1]) && n <= |s.ring|
    ensures Run(s, Ticks(n)).ring == Rotated(s.ring, n)
    ensures n > 0 ==> Run(s, Ticks(n)).current == Some(s.ring[n - 1])
    ensures Orderly(Run(s, Ticks(n)))
    decreases n
  {
    hide Run, Tick, Ticks, Orderly, Rotated;
    RunsTick(s, n);
    NotTurned(s.ring);
    if n > 0 {
      OneTurn(s);
      TurnedOnce(s.ring, n);
      TakingTurns(Tick(s), n - 1);
      RunsTick(Tick(s), n - 1);
    }
  }

  /** Of the switches of a round, thread t runs at the n-th and at no other. */
  ghost predicate OnlyTurn<T>(s: Sched<T>, t: T, n: nat) {
    forall m: nat :: 0 < m <= |s.ring| ==> (Run(s, Ticks(m)).current == Some(t) <==> m == n)
  }

  /** After as many switches as there are threads each has had one turn and everything is as it was. */
  lemma FullRound<T>(s: Sched<T>, t: T)
    requires Orderly(s) && |s.ring| >= 2 && s.current == Some(s.ring[|s.ring| - 1]) && t in s.ring
    ensures Run(s, Ticks(|s.ring|)) == s
    ensures exists n :: 0 < n <= |s.ring| && OnlyTurn(s, t, n)
  {
    hide Run, Ticks, Orderly, Rotated;
    TakingTurns(s, |s.ring|);
    NotTurned(s.ring);
    SameReady(s, Run(s, Ticks(|s.ring|)));
    var n :| 0 <= n < |s.ring| && s.ring[n] == t;
    forall m: nat | 0 < m <= |s.ring|
      ensures Run(s, Ticks(m)).current == Some(t) <==> m == n + 1
    {
      TakingTurns(s, m);
      NoRepeat(s, m - 1, n);
    }
    assert OnlyTurn(s, t, n + 1);
  }

  lemma NoRepeat<T>(s: Sched<T>, i: nat, j: nat)
    requires Orderly(s) && i < |s.ring| && j < |s.ring|
    ensures s.ring[i] == s.ring[j] <==> i == j
  {
  }

  lemma SameReady<T>(s: Sched<T>, s': Sched<T>)
    requires Orderly(s) && Orderly(s') && s'.ring == s.ring && s'.current == s.current
    ensures s' == s
  {
    forall t | t in s.ring
      ensures t in s.ready <==> t in s'.ready
    {
      assert !Stuck(s, t) && !Stuck(s', t);
    }
    assert s'.ready == s.ready;
  }

  /** A thread whose recycled state byte did not say ready never runs. */
  lemma {:induction false} NeverReadyNeverRuns<T>(s: Sched<T>, es: seq<Event<T>>, t: T)
    requires t !in s.ready && s.current != Some(t)
    requires forall e :: e in es && e.Spawned? ==> e.t != t
    ensures !GetsToRun(s, es, t)
    decreases |es|
  {
    if es != [] {
      NeverReadyNeverRuns(Step(s, es[0]), es[1..], t);
    }
  }

  /** A stuck thread stays stuck over every run, and never runs. */
  lemma {:induction false} StuckForever<T>(s: Sched<T>, es: seq<Event<T>>, t: T)
    requires Whole(s) && NewSpawns(s, es) && Stuck(s, t)
    ensures Stuck(Run(s, es), t) && !GetsToRun(s, es, t)
    decreases |es|
  {
    if es != [] {
      match es[0] {
        case Timer => TickWhole(s);
        case Spawned(u, r) => SpawnWhole(s, u, r);
      }
      StuckForever(Step(s, es[0]), es[1..], t);
    }
  }
}
