/**
 The fixed-priority round-robin scheduler. The run queue is a cycle of tasks; here
 it is the sequence met by following `next` from the running task, so the running
 task is always first and a task's index is how far it is from running.
 */
module Sched {
  import opened Arith
  import opened Common

  datatype State = Ready | Running | Sleeping | Dead | Blocked

  /** The idle task's pid. */
  const IDLE: nat := 0

  /**
   `ring` starts at the running task; `dead` is the list of tasks waiting to be
   reaped, newest first; `reaped` records the order in which tasks were released.
   */
  datatype Tasks = Tasks(
    ring: seq<nat>, dead: seq<nat>, reaped: seq<nat>,
    state: map<nat, State>, prio: map<nat, nat>, nextPid: nat)

  /** Every task ever created is in exactly one place: the cycle, the dead list, or reaped. */
  ghost predicate Placed(ring: seq<nat>, dead: seq<nat>, reaped: seq<nat>, nextPid: nat) {
    && IDLE in ring
    && Distinct(ring) && Distinct(dead) && Distinct(reaped)
    && (forall t: nat :: t < nextPid <==> t in ring || t in dead || t in reaped)
    && (forall t :: t in ring ==> t !in dead && t !in reaped)
    && (forall t :: t in dead ==> t !in reaped)
  }

  /** No task of the cycle is dead and only the first may be running; off the cycle all are dead. */
  ghost predicate Stated(s: Tasks) {
    && (forall t :: t in s.ring ==> t in s.state && t in s.prio && s.state[t] != Dead)
    && (forall t :: t in s.ring && t != s.ring[0] ==> s.state[t] != Running)
    && (forall t :: t in s.dead || t in s.reaped ==> t in s.state && s.state[t] == Dead)
  }

  ghost predicate Inv(s: Tasks) {
    Placed(s.ring, s.dead, s.reaped, s.nextPid) && Stated(s)
  }

  /** sched_init. */
  function Start(): (s: Tasks) {
    Tasks([IDLE], [], [], map[IDLE := Ready], map[IDLE := 0], 1)
  }

  // ---------------------------------------------------------------------
  // Choosing the next task
  // ---------------------------------------------------------------------

  predicate Runnable(s: Tasks, t: nat)
    requires t in s.state && s.ring != []
  {
    s.state[t] == Ready || (t == s.ring[0] && s.state[t] == Running)
  }

  /** The order of the scan: from the task after the running one round to it. */
  function Order(s: Tasks): (o: seq<nat>)
    requires s.ring != []
  {
    s.ring[1..] + [s.ring[0]]
  }

  ghost predicate Known(s: Tasks, o: seq<nat>) {
    s.ring != [] && forall t :: t in o ==> t in s.state && t in s.prio
  }

  /** The best so far after scanning `o`: the first runnable task of strictly higher priority wins. */
  function Scan(s: Tasks, o: seq<nat>): (r: (nat, int))
    requires Known(s, o)
  {
    if o == [] then (IDLE, -1) else
      var n := |o| - 1;
      var best := Scan(s, o[..n]);
      if Runnable(s, o[n]) && s.prio[o[n]] > best.1 then (o[n], s.prio[o[n]]) else best
  }

  function Pick(s: Tasks): (t: nat)
    requires s.ring != [] && Known(s, Order(s))
  {
    Scan(s, Order(s)).0
  }

  /** The scan ends on the first of the highest runnable tasks, or on idle when none is runnable. */
  lemma {:induction false} ScanIs(s: Tasks, o: seq<nat>)
    requires Known(s, o)
    ensures var b := Scan(s, o);
      && (forall t :: t in o && Runnable(s, t) ==> s.prio[t] <= b.1)
      && (b.1 == -1 ==> b.0 == IDLE)
      && (b.1 != -1 ==> exists k :: 0 <= k < |o| && FirstBest(s, o, k) && b == (o[k], s.prio[o[k]]))
  {
    if o != [] {
      var n := |o| - 1;
      ScanIs(s, o[..n]);
      var was, b := Scan(s, o[..n]), Scan(s, o);
      if Runnable(s, o[n]) && s.prio[o[n]] > was.1 {
        assert FirstBest(s, o, n);
      } else if was.1 != -1 {
        var k :| 0 <= k < n && FirstBest(s, o[..n], k) && was == (o[k], s.prio[o[k]]);
        assert FirstBest(s, o, k);
      }
    }
  }

  /** Position k of a scan holds a runnable task that outranks everything runnable before it. */
  ghost predicate FirstBest(s: Tasks, o: seq<nat>, k: nat)
    requires Known(s, o) && k < |o|
  {
    Runnable(s, o[k]) && forall j :: 0 <= j < k && Runnable(s, o[j]) ==> s.prio[o[j]] < s.prio[o[k]]
  }

  // ---------------------------------------------------------------------
  // Steps
  // ---------------------------------------------------------------------

  /** sched_reap: the dead list is emptied from its head. */
  function Reap(s: Tasks): (s': Tasks) {
    s.(reaped := s.reaped + s.dead, dead := [])
  }

  function IndexOf(o: seq<nat>, t: nat): (i: nat)
    requires t in o
    ensures i < |o| && o[i] == t
  {
    if o[0] == t then 0 else 1 + IndexOf(o[1..], t)
  }

  /** Turn a cycle so that its k-th task comes first. */
  function Turn(ring: seq<nat>, k: nat): (r: seq<nat>)
    requires k <= |ring|
  {
    ring[k..] + ring[..k]
  }

  /** Switch from the running task to another one, dropping the first if it has died. */
  function SwitchTo(s: Tasks, next: nat): (s': Tasks)
    requires s.ring != [] && s.ring[0] in s.state && next in s.ring[1..]
  {
    var prev := s.ring[0];
    var k := IndexOf(s.ring[1..], next);
    var st := s.state[prev];
    var state := if st == Running then s.state[prev := Ready] else s.state;
    if st == Dead then
      s.(ring := Turn(s.ring[1..], k), dead := [prev] + s.dead, state := state[next := Running])
    else
      s.(ring := Turn(s.ring, k + 1), state := state[next := Running])
  }

  /** schedule. */
  function Schedule(s: Tasks): (s': Tasks)
    requires s.ring != [] && s.ring[0] in s.state && Known(Reap(s), Order(s)) && IDLE in s.ring
  {
    var r := Reap(s);
    PickInRing(r);
    var next := Pick(r);
    if next == r.ring[0] then r.(state := r.state[next := Running]) else SwitchTo(r, next)
  }

  lemma PickInRing(s: Tasks)
    requires s.ring != [] && Known(s, Order(s)) && IDLE in s.ring
    ensures Pick(s) in s.ring && (Pick(s) != s.ring[0] ==> Pick(s) in s.ring[1..])
  {
    ScanIs(s, Order(s));
  }

  /** A new task goes in just behind the running one, the far end of the cycle. */
  function Create(s: Tasks, prio: nat): (s': Tasks) {
    s.(ring := s.ring + [s.nextPid], state := s.state[s.nextPid := Ready],
       prio := s.prio[s.nextPid := prio], nextPid := s.nextPid + 1)
  }

  /** task_exit. */
  function Exit(s: Tasks): (s': Tasks)
    requires s.ring != [] && s.ring[0] in s.state && Known(s, Order(s)) && IDLE in s.ring
  {
    Schedule(s.(state := s.state[s.ring[0] := Dead]))
  }

  function Without(o: seq<nat>, t: nat): (r: seq<nat>)
    requires t in o
  {
    o[..IndexOf(o, t)] + o[IndexOf(o, t) + 1..]
  }

  /** sched_kill_task: the tasks after, and whether anything was killed. */
  function Kill(s: Tasks, pid: nat): (r: (Tasks, bool))
    requires s.ring != [] && s.ring[0] in s.state && Known(s, Order(s)) && IDLE in s.ring
  {
    if pid == IDLE || pid !in s.ring || pid !in s.state || s.state[pid] == Dead then (s, false)
    else if pid == s.ring[0] then (Exit(s), true)
    else (s.(ring := Without(s.ring, pid), dead := [pid] + s.dead, state := s.state[pid := Dead]), true)
  }

  /** The running task gives up the processor in state `st` (sleeping or blocked). */
  function Park(s: Tasks, st: State): (s': Tasks)
    requires s.ring != [] && s.ring[0] in s.state && Known(s, Order(s)) && IDLE in s.ring
  {
    Schedule(s.(state := s.state[s.ring[0] := st]))
  }

  /** A sleeping or blocked task becomes ready. */
  function Wake(s: Tasks, t: nat): (s': Tasks) {
    if t in s.state && (s.state[t] == Sleeping || s.state[t] == Blocked) then s.(state := s.state[t := Ready]) else s
  }

  /** Effective priorities move at any time. */
  function SetPrio(s: Tasks, t: nat, prio: nat): (s': Tasks) {
    if t in s.prio then s.(prio := s.prio[t := prio]) else s
  }

  // ---------------------------------------------------------------------
  // Every step keeps the invariant
  // ---------------------------------------------------------------------

  lemma RingKnown(s: Tasks)
    requires Inv(s)
    ensures s.ring != [] && s.ring[0] in s.state && Known(s, Order(s)) && IDLE in s.ring
  {
  }

  lemma ReapPlaced(ring: seq<nat>, dead: seq<nat>, reaped: seq<nat>, nextPid: nat)
    requires Placed(ring, dead, reaped, nextPid)
    ensures Placed(ring, [], reaped + dead, nextPid)
  {
    DistinctConcat(reaped, dead);
    forall t: nat ensures t in reaped + dead <==> t in dead || t in reaped { }
  }

  lemma TurnKeeps(ring: seq<nat>, k: nat)
    requires k <= |ring| && Distinct(ring)
    ensures Distinct(Turn(ring, k)) && forall t :: t in Turn(ring, k) <==> t in ring
  {
    assert ring == ring[..k] + ring[k..];
  }

  lemma WithoutKeeps(o: seq<nat>, t: nat)
    requires t in o && Distinct(o)
    ensures Distinct(Without(o, t)) && forall x :: x in Without(o, t) <==> x in o && x != t
  {
    var i := IndexOf(o, t);
    assert o == o[..i] + [t] + o[i + 1..];
  }

  /** The invariant but for a running task that may just have died. */
  ghost predicate Leaving(s: Tasks) {
    && Placed(s.ring, s.dead, s.reaped, s.nextPid)
    && (forall t :: t in s.ring ==> t in s.state && t in s.prio)
    && (forall t :: t in s.ring && t != s.ring[0] ==> s.state[t] != Running && s.state[t] != Dead)
    && (forall t :: t in s.dead || t in s.reaped ==> t in s.state && s.state[t] == Dead)
    && (s.ring[0] == IDLE ==> s.state[IDLE] != Dead)
  }

  lemma LeavingKnown(s: Tasks)
    requires Leaving(s)
    ensures s.ring != [] && s.ring[0] in s.state && Known(s, Order(s)) && IDLE in s.ring
  {
  }

  lemma ReapLeaving(s: Tasks)
    requires Leaving(s)
    ensures Leaving(Reap(s))
  {
    ReapPlaced(s.ring, s.dead, s.reaped, s.nextPid);
    forall t: nat ensures t in s.reaped + s.dead <==> t in s.dead || t in s.reaped { }
  }

  /** Off the end: the first task leaves the cycle for the dead list and the rest turns. */
  lemma DropPlaced(ring: seq<nat>, reaped: seq<nat>, nextPid: nat, k: nat)
    requires Placed(ring, [], reaped, nextPid) && ring[0] != IDLE && k < |ring| - 1
    ensures Placed(Turn(ring[1..], k), [ring[0]], reaped, nextPid)
  {
    var rest := ring[1..];
    FirstApart(ring);
    TurnKeeps(rest, k);
  }

  lemma FirstApart(ring: seq<nat>)
    requires ring != [] && Distinct(ring)
    ensures Distinct(ring[1..]) && ring[0] !in ring[1..]
    ensures forall t :: t in ring <==> t == ring[0] || t in ring[1..]
  {
    assert ring == [ring[0]] + ring[1..];
  }

  lemma TurnPlaced(ring: seq<nat>, dead: seq<nat>, reaped: seq<nat>, nextPid: nat, k: nat)
    requires Placed(ring, dead, reaped, nextPid) && k <= |ring|
    ensures Placed(Turn(ring, k), dead, reaped, nextPid)
  {
    TurnKeeps(ring, k);
  }

  lemma SwitchInv(s: Tasks, next: nat)
    requires Leaving(s) && s.dead == [] && next in s.ring[1..]
    ensures s.ring != [] && s.ring[0] in s.state && Inv(SwitchTo(s, next))
    ensures SwitchTo(s, next).ring[0] == next && SwitchTo(s, next).state[next] == Running
  {
    var k := IndexOf(s.ring[1..], next);
    if s.state[s.ring[0]] == Dead {
      DropPlaced(s.ring, s.reaped, s.nextPid, k);
      assert [s.ring[0]] + s.dead == [s.ring[0]];
      SwitchDropStated(s, next);
    } else {
      TurnPlaced(s.ring, s.dead, s.reaped, s.nextPid, k + 1);
      SwitchTurnStated(s, next);
    }
  }

  /** The state a switch to `next` leaves a task in. */
  ghost function Switched(s: Tasks, t: nat, next: nat): (st: State)
    requires s.ring != [] && t in s.state
  {
    if t == next then Running else if t == s.ring[0] && s.state[t] == Running then Ready else s.state[t]
  }

  lemma SwitchRing(s: Tasks, next: nat)
    requires Leaving(s) && next in s.ring[1..]
    ensures s.ring != [] && s.ring[0] in s.state && SwitchTo(s, next).ring != [] && SwitchTo(s, next).ring[0] == next
    ensures forall t :: t in SwitchTo(s, next).ring <==> t in s.ring && !(t == s.ring[0] && s.state[t] == Dead)
  {
    var rest := s.ring[1..];
    var k := IndexOf(rest, next);
    FirstApart(s.ring);
    if s.state[s.ring[0]] == Dead {
      TurnKeeps(rest, k);
      assert Turn(rest, k)[0] == rest[k];
    } else {
      TurnKeeps(s.ring, k + 1);
      assert Turn(s.ring, k + 1)[0] == rest[k];
    }
  }

  lemma SwitchState(s: Tasks, next: nat, t: nat)
    requires s.ring != [] && s.ring[0] in s.state && next in s.ring[1..] && t in s.state
    ensures t in SwitchTo(s, next).state && SwitchTo(s, next).state[t] == Switched(s, t, next)
  {
  }

  lemma SwitchTurnStated(s: Tasks, next: nat)
    requires Leaving(s) && next in s.ring[1..] && s.state[s.ring[0]] != Dead
    ensures Stated(SwitchTo(s, next)) && SwitchTo(s, next).ring[0] == next
  {
    var s' := SwitchTo(s, next);
    SwitchRing(s, next);
    forall t | t in s'.ring ensures t in s'.state && s'.state[t] != Dead && (t != next ==> s'.state[t] != Running) {
      SwitchState(s, next, t);
    }
    forall t | t in s'.dead || t in s'.reaped ensures t in s'.state && s'.state[t] == Dead {
      SwitchState(s, next, t);
      assert next in s.ring && s.ring[0] in s.ring;
    }
  }

  lemma SwitchDropStated(s: Tasks, next: nat)
    requires Leaving(s) && next in s.ring[1..] && s.state[s.ring[0]] == Dead && s.dead == []
    ensures Stated(SwitchTo(s, next)) && SwitchTo(s, next).ring[0] == next
  {
    var k := IndexOf(s.ring[1..], next);
    FirstApart(s.ring);
    TurnKeeps(s.ring[1..], k);
    assert Turn(s.ring[1..], k)[0] == next;
  }

  /** schedule keeps the invariant, and afterwards the running task is the one it picked. */
  lemma ScheduleInv(s: Tasks)
    requires Leaving(s)
    ensures s.ring != [] && s.ring[0] in s.state && Known(Reap(s), Order(s)) && IDLE in s.ring
    ensures Inv(Schedule(s)) && Schedule(s).ring[0] == Pick(Reap(s))
    ensures Schedule(s).state[Schedule(s).ring[0]] == Running
  {
    LeavingKnown(s);
    var r := Reap(s);
    ReapLeaving(s);
    PickInRing(r);
    if Pick(r) != r.ring[0] {
      SwitchInv(r, Pick(r));
    }
  }

  // ---------------------------------------------------------------------
  // Whole runs
  // ---------------------------------------------------------------------

  datatype Step =
    | DoSchedule
    | DoCreate(prio: nat)
    | DoKill(pid: nat)
    | DoExit
    | DoPark(st: State)
    | DoWake(t: nat)
    | DoSetPrio(t: nat, prio: nat)

  /** What callers may do: the idle task never exits, and parking is sleeping or blocking. */
  ghost predicate Legal(s: Tasks, step: Step) {
    match step
    case DoExit => s.ring != [] && s.ring[0] != IDLE
    case DoPark(st) => st == Sleeping || st == Blocked
    case _ => true
  }

  ghost function Apply(s: Tasks, step: Step): (s': Tasks)
    requires Inv(s)
  {
    RingKnown(s);
    match step
    case DoSchedule => Schedule(s)
    case DoCreate(prio) => Create(s, prio)
    case DoKill(pid) => Kill(s, pid).0
    case DoExit => Exit(s)
    case DoPark(st) => Park(s, st)
    case DoWake(t) => Wake(s, t)
    case DoSetPrio(t, prio) => SetPrio(s, t, prio)
  }

  lemma InvLeaving(s: Tasks, st: State)
    requires Inv(s) && (st == Dead ==> s.ring[0] != IDLE)
    ensures s.ring != [] && Leaving(s) && Leaving(s.(state := s.state[s.ring[0] := st]))
  {
    FirstApart(s.ring);
  }

  /** A task that has died is never picked again. */
  lemma ExitLeaves(s: Tasks)
    requires Leaving(s) && s.state[s.ring[0]] == Dead
    ensures s.ring != [] && Known(Reap(s), Order(s)) && Pick(Reap(s)) != s.ring[0]
    ensures Schedule(s).dead == [s.ring[0]]
  {
    LeavingKnown(s);
    ReapLeaving(s);
    var r := Reap(s);
    ScanIs(r, Order(r));
    assert [s.ring[0]] + r.dead == [s.ring[0]];
    PickInRing(r);
  }

  lemma CreateInv(s: Tasks, prio: nat)
    requires Inv(s)
    ensures Inv(Create(s, prio))
  {
    var s' := Create(s, prio);
    assert forall t :: t in s'.ring <==> t in s.ring || t == s.nextPid;
    DistinctConcat(s.ring, [s.nextPid]);
  }

  lemma KillInv(s: Tasks, pid: nat)
    requires Inv(s)
    ensures s.ring != [] && s.ring[0] in s.state && Known(s, Order(s)) && IDLE in s.ring
    ensures Inv(Kill(s, pid).0)
  {
    RingKnown(s);
    if pid != IDLE && pid in s.ring {
      if pid == s.ring[0] {
        InvLeaving(s, Dead);
        ScheduleInv(s.(state := s.state[pid := Dead]));
      } else {
        KillOther(s, pid);
      }
    }
  }

  lemma KillOther(s: Tasks, pid: nat)
    requires Inv(s) && pid in s.ring && pid != IDLE && pid != s.ring[0]
    ensures Inv(s.(ring := Without(s.ring, pid), dead := [pid] + s.dead, state := s.state[pid := Dead]))
    ensures Without(s.ring, pid)[0] == s.ring[0]
  {
    WithoutKeeps(s.ring, pid);
    DistinctConcat([pid], s.dead);
    assert forall t :: t in [pid] + s.dead <==> t == pid || t in s.dead;
    assert IndexOf(s.ring, pid) > 0;
  }

  /** Every legal step keeps every task in exactly one place, idle on the cycle, and the dead off it. */
  lemma StepInv(s: Tasks, step: Step)
    requires Inv(s) && Legal(s, step)
    ensures Inv(Apply(s, step))
  {
    RingKnown(s);
    match step
    case DoSchedule =>
      InvLeaving(s, s.state[s.ring[0]]);
      ScheduleInv(s);
    case DoCreate(prio) => CreateInv(s, prio);
    case DoKill(pid) => KillInv(s, pid);
    case DoExit =>
      InvLeaving(s, Dead);
      ScheduleInv(s.(state := s.state[s.ring[0] := Dead]));
    case DoPark(st) =>
      InvLeaving(s, st);
      ScheduleInv(s.(state := s.state[s.ring[0] := st]));
    case DoWake(t) =>
    case DoSetPrio(t, prio) =>
  }

  ghost predicate LegalRun(s: Tasks, steps: seq<Step>)
    requires Inv(s)
    decreases |steps|
  {
    steps == [] || (Legal(s, steps[0]) && (StepInv(s, steps[0]); LegalRun(Apply(s, steps[0]), steps[1..])))
  }

  ghost function Run(s: Tasks, steps: seq<Step>): (s': Tasks)
    requires Inv(s) && LegalRun(s, steps)
    ensures Inv(s')
    decreases |steps|
  {
    if steps == [] then s else
      StepInv(s, steps[0]);
      Run(Apply(s, steps[0]), steps[1..])
  }

  /** Reaping only ever adds to the record, so with Inv no task is reaped twice. */
  lemma {:induction false} ReapedGrows(s: Tasks, steps: seq<Step>)
    requires Inv(s) && LegalRun(s, steps)
    ensures s.reaped <= Run(s, steps).reaped
    decreases |steps|
  {
    if steps != [] {
      StepInv(s, steps[0]);
      var s1 := Apply(s, steps[0]);
      assert s.reaped <= s1.reaped;
      ReapedGrows(s1, steps[1..]);
    }
  }

  /**
   The main safety theorem, for every legal run from start-up: the cycle holds idle
   and the running task once each, the dead are off the cycle, the running task is
   never among those about to be reaped, and every task ever created is either still
   held or was reaped exactly once.
   */
  lemma EveryRun(steps: seq<Step>)
    requires Inv(Start()) ==> LegalRun(Start(), steps)
    ensures Inv(Start())
    ensures var s := Run(Start(), steps);
      && Distinct(s.ring) && IDLE in s.ring
      && s.ring[0] !in s.dead && (forall t :: t in s.dead ==> t !in s.ring)
      && Distinct(s.reaped)
      && forall t: nat :: t < s.nextPid ==> (t in s.reaped <==> t !in s.ring && t !in s.dead)
  {
    var s := Run(Start(), steps);
    assert s.ring[0] in s.ring;
  }

  // ---------------------------------------------------------------------
  // What schedule chooses, and how soon
  // ---------------------------------------------------------------------

  /** schedule never leaves a runnable task that outranks the one it runs. */
  lemma PicksHighest(s: Tasks, t: nat)
    requires Leaving(s) && t in s.ring && s.ring != [] && Runnable(Reap(s), t)
    ensures Known(Reap(s), Order(s)) && Pick(Reap(s)) in s.ring
    ensures s.prio[t] <= s.prio[Pick(Reap(s))] && Runnable(Reap(s), Pick(Reap(s)))
  {
    LeavingKnown(s);
    FirstApart(s.ring);
    ScanIs(Reap(s), Order(s));
  }

  lemma {:induction false} IndexUnique(o: seq<nat>, t: nat, i: nat)
    requires Distinct(o) && i < |o| && o[i] == t
    ensures IndexOf(o, t) == i
  {
  }

  /** x is ready and nothing runnable outranks it. */
  ghost predicate Top(s: Tasks, x: nat) {
    && s.ring != [] && x in s.ring[1..] && x in s.state && x in s.prio && s.state[x] == Ready
    && forall t :: t in s.ring && t in s.state && t in s.prio && Runnable(s, t) ==> s.prio[t] <= s.prio[x]
  }

  /** The scan stops at a top-priority ready task or before it. */
  lemma PicksBefore(s: Tasks, x: nat) returns (k: nat)
    requires Leaving(s) && Top(s, x)
    ensures s.ring != [] && Known(Reap(s), Order(s)) && x in s.ring[1..]
    ensures k <= IndexOf(s.ring[1..], x) && Pick(Reap(s)) == s.ring[1..][k]
  {
    LeavingKnown(s);
    FirstApart(s.ring);
    var r, o := Reap(s), Order(s);
    ScanIs(r, o);
    var m := IndexOf(s.ring[1..], x);
    assert o[m] == x && Runnable(r, x);
    k :| 0 <= k < |o| && FirstBest(r, o, k) && Scan(r, o) == (o[k], s.prio[o[k]]);
    assert o[k] in s.ring;
  }

  /** Each schedule that does not run a top-priority ready task brings it strictly closer to running. */
  lemma Closer(s: Tasks, x: nat)
    requires Leaving(s) && Top(s, x)
    ensures s.ring != [] && s.ring[0] in s.state && Known(Reap(s), Order(s)) && IDLE in s.ring && x in s.ring
    ensures var s' := Schedule(s);
      x in s'.ring && (s'.ring[0] != x ==> IndexOf(s'.ring, x) < IndexOf(s.ring, x))
  {
    LeavingKnown(s);
    var k := PicksBefore(s, x);
    FirstApart(s.ring);
    ScheduleTurns(s, k);
    TurnsCloser(s.ring, k, x);
  }

  /** Turning to a task at or before x brings x closer, with or without the first task. */
  lemma TurnsCloser(ring: seq<nat>, k: nat, x: nat)
    requires ring != [] && Distinct(ring) && x in ring[1..] && k <= IndexOf(ring[1..], x)
    ensures x in ring
    ensures x in Turn(ring[1..], k) && IndexOf(Turn(ring[1..], k), x) < IndexOf(ring, x)
    ensures x in Turn(ring, k + 1) && IndexOf(Turn(ring, k + 1), x) < IndexOf(ring, x)
  {
    FirstApart(ring);
    var m := IndexOf(ring[1..], x);
    assert ring[1..][m] == x && ring[m + 1] == x;
    IndexUnique(ring, x, m + 1);
    TurnCloser(ring[1..], k, m);
    TurnCloser(ring, k + 1, m + 1);
  }

  /** Scheduling the k-th task after the running one turns the cycle to it, without a dead first task. */
  lemma ScheduleTurns(s: Tasks, k: nat)
    requires Leaving(s) && s.ring != [] && s.ring[0] in s.state && Known(Reap(s), Order(s)) && IDLE in s.ring
    requires k < |s.ring| - 1 && Pick(Reap(s)) == s.ring[1..][k]
    ensures Schedule(s).ring == if s.state[s.ring[0]] == Dead then Turn(s.ring[1..], k) else Turn(s.ring, k + 1)
  {
    var rest := s.ring[1..];
    FirstApart(s.ring);
    SwitchTurns(Reap(s), k, rest[k]);
  }

  lemma SwitchTurns(s: Tasks, k: nat, next: nat)
    requires s.ring != [] && s.ring[0] in s.state && Distinct(s.ring[1..]) && k < |s.ring| - 1 && next == s.ring[1..][k]
    ensures next in s.ring[1..]
    ensures SwitchTo(s, next).ring == if s.state[s.ring[0]] == Dead then Turn(s.ring[1..], k) else Turn(s.ring, k + 1)
  {
    IndexUnique(s.ring[1..], next, k);
  }

  lemma TurnCloser(ring: seq<nat>, k: nat, m: nat)
    requires k <= m < |ring| && Distinct(ring)
    ensures ring[m] in Turn(ring, k) && IndexOf(Turn(ring, k), ring[m]) == m - k
  {
    TurnKeeps(ring, k);
    assert Turn(ring, k)[m - k] == ring[m];
    IndexUnique(Turn(ring, k), ring[m], m - k);
  }

  /** The tasks as schedule finds them when a step calls it. */
  ghost function Calls(s: Tasks, step: Step): (r: Option<Tasks>)
    requires s.ring != [] && s.ring[0] in s.state
  {
    match step
    case DoSchedule => Some(s)
    case DoExit => Some(s.(state := s.state[s.ring[0] := Dead]))
    case DoPark(st) => Some(s.(state := s.state[s.ring[0] := st]))
    case DoKill(pid) =>
      if pid != IDLE && pid == s.ring[0] && s.state[pid] != Dead then Some(s.(state := s.state[pid := Dead])) else None
    case _ => None
  }

  lemma WithoutIndex(o: seq<nat>, t: nat, x: nat)
    requires Distinct(o) && t in o && x in o && t != x
    ensures x in Without(o, t) && IndexOf(Without(o, t), x) <= IndexOf(o, x)
  {
    WithoutKeeps(o, t);
    var i, j := IndexOf(o, t), IndexOf(o, x);
    var r := Without(o, t);
    if j < i { assert r[j] == x; IndexUnique(r, x, j); } else { assert r[j - 1] == x; IndexUnique(r, x, j - 1); }
  }

  lemma AppendIndex(o: seq<nat>, t: nat, x: nat)
    requires Distinct(o + [t]) && x in o
    ensures IndexOf(o + [t], x) == IndexOf(o, x)
  {
    assert (o + [t])[IndexOf(o, x)] == x;
    IndexUnique(o + [t], x, IndexOf(o, x));
  }

  // ---------------------------------------------------------------------
  // What a step does to each task
  // ---------------------------------------------------------------------

  /** The step takes t off the cycle: it is the running task and exits, or it is killed. */
  ghost predicate Ends(s: Tasks, step: Step, t: nat)
    requires s.ring != []
  {
    (step.DoExit? && t == s.ring[0]) || (step == DoKill(t) && t != IDLE)
  }

  /** The state a step leaves a task in, by the state before it and whether it is the one that runs next. */
  ghost function Becomes(s: Tasks, step: Step, t: nat, next: nat): (st: State)
    requires s.ring != [] && s.ring[0] in s.state && t in s.state
  {
    if Calls(s, step).Some? && t == next then Running
    else if step.DoPark? && t == s.ring[0] then step.st
    else if Calls(s, step).Some? && t == s.ring[0] && s.state[t] == Running then Ready
    else if step == DoWake(t) && (s.state[t] == Sleeping || s.state[t] == Blocked) then Ready
    else s.state[t]
  }

  /**
   schedule makes the task it picked Running, a Running one it leaves Ready, and touches
   no other; the only task to go is a first one that has died.
   */
  lemma ScheduleStates(s: Tasks, t: nat)
    requires Leaving(s) && t in s.ring
    ensures s.ring != [] && s.ring[0] in s.state && Known(Reap(s), Order(s)) && IDLE in s.ring
    ensures Schedule(s).ring != [] && Schedule(s).prio == s.prio && Schedule(s).nextPid == s.nextPid
    ensures t in Schedule(s).ring <==> !(t == s.ring[0] && s.state[t] == Dead)
    ensures t in Schedule(s).ring ==> t in Schedule(s).state
    ensures t in Schedule(s).ring ==> Schedule(s).state[t] == Switched(s, t, Schedule(s).ring[0])
  {
    LeavingKnown(s);
    ReapLeaving(s);
    var r := Reap(s);
    PickInRing(r);
    if s.state[s.ring[0]] == Dead { ExitLeaves(s); }
    if Pick(r) != r.ring[0] {
      SwitchRing(r, Pick(r));
      SwitchState(r, Pick(r), t);
    }
  }

  /** What schedule makes of every task on the cycle. */
  ghost predicate PassesOn(s: Tasks, s': Tasks) {
    && s.ring != [] && s'.ring != [] && s'.prio == s.prio
    && forall t :: t in s.ring ==> t in s.state && Passed(s, s', t)
  }

  ghost predicate Passed(s: Tasks, s': Tasks, t: nat)
    requires s.ring != [] && s'.ring != [] && t in s.state
  {
    var left := if t == s.ring[0] && s.state[t] == Running then Ready else s.state[t];
    && (t in s'.ring <==> !(t == s.ring[0] && s.state[t] == Dead))
    && (t in s'.ring ==> t in s'.state && s'.state[t] == if t == s'.ring[0] then Running else left)
  }

  lemma SchedulePasses(s: Tasks)
    requires Leaving(s)
    ensures s.ring != [] && s.ring[0] in s.state && Known(Reap(s), Order(s)) && IDLE in s.ring
    ensures PassesOn(s, Schedule(s))
  {
    ScheduleInv(s);
    forall t | t in s.ring ensures t in s.state && Passed(s, Schedule(s), t) { ScheduleStates(s, t); }
    ScheduleStates(s, IDLE);
  }

  /** A task that is not runnable does not run on, unless it is the idle task. */
  lemma NotPicked(s: Tasks)
    requires Leaving(s) && s.ring[0] != IDLE && s.state[s.ring[0]] != Ready && s.state[s.ring[0]] != Running
    ensures s.ring != [] && s.ring[0] in s.state && Known(Reap(s), Order(s)) && IDLE in s.ring
    ensures Schedule(s).ring != [] && Schedule(s).ring[0] != s.ring[0]
  {
    LeavingKnown(s);
    ReapLeaving(s);
    ScanIs(Reap(s), Order(s));
    ScheduleInv(s);
  }

  /** What becomes of a task of the cycle at any step: whether it stays there, its state and its priority. */
  lemma StepStates(s: Tasks, step: Step, t: nat)
    requires Inv(s) && Legal(s, step) && t in s.ring
    ensures s.ring != [] && s.ring[0] in s.state && Apply(s, step).ring != []
    ensures t in Apply(s, step).ring <==> !Ends(s, step, t)
    ensures t in Apply(s, step).ring ==> t in Apply(s, step).state && t in Apply(s, step).prio
    ensures t in Apply(s, step).ring ==> Apply(s, step).state[t] == Becomes(s, step, t, Apply(s, step).ring[0])
    ensures t in Apply(s, step).ring ==>
      Apply(s, step).prio[t] == if step.DoSetPrio? && step.t == t then step.prio else s.prio[t]
  {
    RingKnown(s);
    match step
    case DoSchedule =>
      InvLeaving(s, s.state[s.ring[0]]);
      ScheduleStates(s, t);
    case DoExit => ParkStates(s, Dead, t);
    case DoPark(st) => ParkStates(s, st, t);
    case DoKill(pid) => KillStates(s, pid, t);
    case DoCreate(_) => AsideStates(s, step, t);
    case DoWake(_) => AsideStates(s, step, t);
    case DoSetPrio(_, _) => AsideStates(s, step, t);
  }

  lemma AsideStates(s: Tasks, step: Step, t: nat)
    requires Inv(s) && t in s.ring && (step.DoCreate? || step.DoWake? || step.DoSetPrio?)
    ensures s.ring != [] && s.ring[0] in s.state && Apply(s, step).ring != [] && t in Apply(s, step).ring
    ensures t in Apply(s, step).state && t in Apply(s, step).prio
    ensures Apply(s, step).state[t] == Becomes(s, step, t, Apply(s, step).ring[0])
    ensures Apply(s, step).prio[t] == if step.DoSetPrio? && step.t == t then step.prio else s.prio[t]
  {
    RingKnown(s);
  }

  /** The running task put into a state and schedule called. */
  lemma ParkStates(s: Tasks, st: State, t: nat)
    requires Inv(s) && t in s.ring && st != Running && (st == Dead ==> s.ring[0] != IDLE)
    ensures s.ring != [] && s.ring[0] in s.state && Known(s, Order(s)) && IDLE in s.ring
    ensures Park(s, st).ring != [] && Park(s, st).prio == s.prio
    ensures t in Park(s, st).ring <==> !(t == s.ring[0] && st == Dead)
    ensures t in Park(s, st).ring ==> t in Park(s, st).state
    ensures t in Park(s, st).ring ==>
      Park(s, st).state[t] == if t == Park(s, st).ring[0] then Running else if t == s.ring[0] then st else s.state[t]
  {
    RingKnown(s);
    InvLeaving(s, st);
    ScheduleStates(s.(state := s.state[s.ring[0] := st]), t);
  }

  lemma KillStates(s: Tasks, pid: nat, t: nat)
    requires Inv(s) && t in s.ring
    ensures s.ring != [] && s.ring[0] in s.state && Known(s, Order(s)) && IDLE in s.ring
    ensures Kill(s, pid).0.ring != [] && Kill(s, pid).0.prio == s.prio
    ensures t in Kill(s, pid).0.ring <==> !(t == pid && t != IDLE)
    ensures t in Kill(s, pid).0.ring ==>
      && t in Kill(s, pid).0.state
      && Kill(s, pid).0.state[t] == Becomes(s, DoKill(pid), t, Kill(s, pid).0.ring[0])
  {
    RingKnown(s);
    if pid != IDLE && pid in s.ring {
      if pid == s.ring[0] {
        ParkStates(s, Dead, t);
      } else {
        WithoutKeeps(s.ring, pid);
      }
    }
  }

  /** Killing another task takes it off the cycle for the dead list and says so; a pid that names none does nothing. */
  lemma KillWorks(s: Tasks, pid: nat)
    requires Inv(s)
    ensures s.ring != [] && s.ring[0] in s.state && Known(s, Order(s)) && IDLE in s.ring
    ensures Kill(s, pid).1 <==> pid in s.ring && pid != IDLE
    ensures !Kill(s, pid).1 ==> Kill(s, pid).0 == s
    ensures Kill(s, pid).1 ==> pid !in Kill(s, pid).0.ring && pid in Kill(s, pid).0.dead
    ensures Kill(s, pid).1 ==> pid in Kill(s, pid).0.state && Kill(s, pid).0.state[pid] == Dead
  {
    RingKnown(s);
    KillInv(s, pid);
    if Kill(s, pid).1 {
      KillStates(s, pid, pid);
      if pid == s.ring[0] {
        InvLeaving(s, Dead);
        ExitLeaves(s.(state := s.state[pid := Dead]));
      }
    }
  }

  /** A new task has the next pid and the priority asked for, is ready, and comes last of all. */
  lemma CreateWorks(s: Tasks, prio: nat)
    requires Inv(s)
    ensures var s' := Create(s, prio);
      && s'.ring == s.ring + [s.nextPid] && s.nextPid !in s.ring && s'.nextPid == s.nextPid + 1
      && s'.state[s.nextPid] == Ready && s'.prio[s.nextPid] == prio
  {
  }

  /** The step takes the processor from t for good or until it is woken. */
  ghost predicate Stops(s: Tasks, step: Step, t: nat)
    requires s.ring != []
  {
    Ends(s, step, t) || (step.DoPark? && t == s.ring[0])
  }

  /** A runnable task that is not killed, does not exit and does not park stays on the cycle and runnable. */
  lemma StaysRunnable(s: Tasks, step: Step, t: nat)
    requires Inv(s) && Legal(s, step) && t in s.ring && s.ring != [] && Runnable(s, t) && !Stops(s, step, t)
    ensures Apply(s, step).ring != [] && t in Apply(s, step).ring && t in Apply(s, step).state
    ensures Runnable(Apply(s, step), t)
  {
    StepStates(s, step, t);
    StepInv(s, step);
    if Calls(s, step).None? { FirstStays(s, step); }
  }

  /** Only schedule changes which task runs. */
  lemma FirstStays(s: Tasks, step: Step)
    requires Inv(s) && Legal(s, step)
    ensures s.ring != [] && s.ring[0] in s.state && Apply(s, step).ring != []
    ensures Calls(s, step).None? ==> Apply(s, step).ring[0] == s.ring[0]
  {
    RingKnown(s);
    StepInv(s, step);
    if step.DoKill? && step.pid in s.ring && step.pid != IDLE && step.pid != s.ring[0] { KillOther(s, step.pid); }
  }

  ghost predicate Undisturbed(s: Tasks, steps: seq<Step>, t: nat)
    requires Inv(s) && LegalRun(s, steps)
    decreases |steps|
  {
    steps == [] ||
    (RingKnown(s); StepInv(s, steps[0]);
     !Stops(s, steps[0], t) && Undisturbed(Apply(s, steps[0]), steps[1..], t))
  }

  /** Over any run, whatever the others do. */
  lemma {:induction false} RunsOn(s: Tasks, steps: seq<Step>, t: nat)
    requires Inv(s) && LegalRun(s, steps) && t in s.ring && s.ring != [] && Runnable(s, t) && Undisturbed(s, steps, t)
    ensures var s' := Run(s, steps); s'.ring != [] && t in s'.ring && t in s'.state && Runnable(s', t)
    decreases |steps|
  {
    if steps != [] {
      StepInv(s, steps[0]);
      StaysRunnable(s, steps[0], t);
      RunsOn(Apply(s, steps[0]), steps[1..], t);
    }
  }

  // ---------------------------------------------------------------------
  // Waiting
  // ---------------------------------------------------------------------

  /** Nothing runnable outranks x. */
  ghost predicate Unbeaten(s: Tasks, x: nat) {
    && s.ring != [] && x in s.prio
    && forall t :: t in s.ring && t in s.state && t in s.prio && Runnable(s, t) ==> s.prio[t] <= s.prio[x]
  }

  /** x is not stopped, is outranked by nothing whenever schedule runs, and is not chosen. */
  ghost predicate PassedOver(s: Tasks, step: Step, x: nat)
    requires Inv(s) && Legal(s, step)
  {
    RingKnown(s);
    StepInv(s, step);
    && !Stops(s, step, x) && Apply(s, step).ring[0] != x
    && (Calls(s, step).Some? ==> Unbeaten(Calls(s, step).value, x))
  }

  /** No step moves a waiting task further away, and each schedule moves it nearer. */
  lemma PassedOverCloser(s: Tasks, step: Step, x: nat)
    requires Inv(s) && Legal(s, step) && PassedOver(s, step, x)
    requires x in s.ring && x != s.ring[0] && s.state[x] == Ready
    ensures s.ring != [] && s.ring[0] in s.state && x in Apply(s, step).ring && x in Apply(s, step).state
    ensures Apply(s, step).state[x] == Ready
    ensures IndexOf(Apply(s, step).ring, x) + (if Calls(s, step).Some? then 1 else 0) <= IndexOf(s.ring, x)
  {
    RingKnown(s);
    StepInv(s, step);
    StepStates(s, step, x);
    FirstApart(s.ring);
    match step
    case DoSchedule =>
      InvLeaving(s, s.state[s.ring[0]]);
      Closer(s, x);
    case DoExit =>
      InvLeaving(s, Dead);
      Closer(Calls(s, step).value, x);
    case DoPark(st) =>
      InvLeaving(s, st);
      Closer(Calls(s, step).value, x);
    case DoKill(pid) =>
      if Calls(s, step).Some? {
        InvLeaving(s, Dead);
        Closer(Calls(s, step).value, x);
      } else if Kill(s, pid).1 {
        WithoutKeeps(s.ring, pid);
        WithoutIndex(s.ring, pid, x);
      }
    case DoCreate(prio) => AppendIndex(s.ring, s.nextPid, x);
    case DoWake(t) =>
    case DoSetPrio(t, prio) =>
  }

  ghost predicate PassedOverRun(s: Tasks, steps: seq<Step>, x: nat)
    requires Inv(s) && LegalRun(s, steps)
    decreases |steps|
  {
    steps == [] ||
    (PassedOver(s, steps[0], x) && (StepInv(s, steps[0]); PassedOverRun(Apply(s, steps[0]), steps[1..], x)))
  }

  /** How many of the steps call schedule. */
  ghost function Schedules(s: Tasks, steps: seq<Step>): (n: nat)
    requires Inv(s) && LegalRun(s, steps)
    decreases |steps|
  {
    if steps == [] then 0 else
      RingKnown(s);
      StepInv(s, steps[0]);
      (if Calls(s, steps[0]).Some? then 1 else 0) + Schedules(Apply(s, steps[0]), steps[1..])
  }

  /**
   Bounded round-robin: however tasks come, go, sleep, wake and change priority in
   between, a ready task that nothing outranks and nothing stops is passed over fewer
   times than its distance from the running task.
   */
  lemma {:induction false} BoundedWait(s: Tasks, steps: seq<Step>, x: nat)
    requires Inv(s) && LegalRun(s, steps) && x in s.ring && x != s.ring[0] && s.state[x] == Ready
    requires PassedOverRun(s, steps, x)
    ensures Schedules(s, steps) < IndexOf(s.ring, x)
    decreases |steps|
  {
    if steps == [] {
      assert IndexOf(s.ring, x) > 0;
    } else {
      StepInv(s, steps[0]);
      PassedOverCloser(s, steps[0], x);
      BoundedWait(Apply(s, steps[0]), steps[1..], x);
    }
  }
}
