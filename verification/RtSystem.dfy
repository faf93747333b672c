/**
 Scheduler and mutexes as one machine. Only the running task acts, a contended lock
 blocks it, an unlock readies the task it hands the mutex to, and `schedule` picks.
 That a waiter runs again only once it has been handed its mutex follows.
 */
module RtSystem {
  import opened Arith
  import opened Common
  import opened Rtos
  import Sched
  import RtosRuns

  datatype System = System(s: Sched.Tasks, w: World)

  datatype Event =
    | Tick
    | Spawn(prio: nat)
    | Leave
    | Nap
    | Rouse(t: nat)
    | Acquire(m: nat)
    | Return
    | Release(m: nat)

  /** The task holds a mutex or is in a contended lock call. */
  ghost predicate Busy(w: World, t: nat) {
    Note(w.holding, t).Some? || Note(w.blockedOn, t).Some?
  }

  /**
   What the code of a task may do next. A task takes one mutex at a time, and the one it
   unlocks is the one it holds. In a contended lock call it can only return from it. The
   idle task takes no mutex and does not exit. Timers wake sleepers, not waiters.
   */
  ghost predicate Legal(j: System, e: Event)
    requires j.s.ring != []
  {
    var me := j.s.ring[0];
    match e
    case Tick => true
    case Spawn(prio) => true
    case Leave => me != Sched.IDLE && !Busy(j.w, me)
    case Nap => Note(j.w.blockedOn, me).None?
    case Rouse(t) => t in j.s.state && j.s.state[t] == Sched.Sleeping
    case Acquire(m) => me != Sched.IDLE && !Busy(j.w, me)
    case Return => Note(j.w.blockedOn, me).Some?
    case Release(m) => Note(j.w.holding, me) == Some(m)
  }

  /** The scheduler reads the priorities the mutexes have set. */
  ghost function Mirror(s: Sched.Tasks, w: World): (s': Sched.Tasks) {
    s.(prio := map t | t in s.prio :: At(w.prio, t))
  }

  /** A new task comes with its own priority. */
  function Enrol(w: World, t: nat, prio: nat): (w': World) {
    w.(base := w.base[t := prio], prio := w.prio[t := prio])
  }

  /** The tasks as they are when the step calls `schedule`, or as it leaves them if it does not. */
  ghost function Before(j: System, e: Event): (r: (Sched.Tasks, World, bool))
    requires j.s.ring != []
  {
    var s, w, me := j.s, j.w, j.s.ring[0];
    match e
    case Tick => (s, w, true)
    case Spawn(prio) => (Sched.Create(s, prio), Enrol(w, s.nextPid, prio), false)
    case Leave => (s.(state := s.state[me := Sched.Dead]), w, true)
    case Nap => (s.(state := s.state[me := Sched.Sleeping]), w, true)
    case Rouse(t) => (Sched.Wake(s, t), w, false)
    case Acquire(m) =>
      var w' := Lock(w, me, m);
      if Box(w.mutex, m).owner.None? then (s, w', false)
      else (Mirror(s, w').(state := s.state[me := Sched.Blocked]), w', true)
    case Return => (s, Resume(w, me), false)
    case Release(m) =>
      var w', q := Unlock(w, me, m), Box(w.mutex, m).waiters;
      if q == [] then (Mirror(s, w'), w', false) else (Sched.Wake(Mirror(s, w'), q[0]), w', true)
  }

  ghost function Apply(j: System, e: Event): (j': System)
    requires Inv(j) && Legal(j, e)
  {
    StepReady(j, e);
    var (s, w, calls) := Before(j, e);
    if calls then Rescheduled(s, w); System(Sched.Schedule(s), w) else System(s, w)
  }

  // ---------------------------------------------------------------------
  // The invariant
  // ---------------------------------------------------------------------

  /** The task is in the queue of the mutex it is noted for. */
  ghost predicate Waiting(w: World, t: nat) {
    Note(w.blockedOn, t).Some? && t in Box(w.mutex, Note(w.blockedOn, t).value).waiters
  }

  /** No task is blocked but those that wait. */
  ghost predicate OnlyWaiters(s: Sched.Tasks, w: World) {
    forall t :: t in s.ring && t in s.state && s.state[t] == Sched.Blocked ==> Waiting(w, t)
  }

  /** Priorities agree, tasks with a mutex are on the cycle, and every waiter is blocked. */
  ghost predicate Joined(s: Sched.Tasks, w: World) {
    && (forall t :: t in s.ring ==> t in s.state && t in s.prio && s.prio[t] == At(w.prio, t))
    && (forall t: nat :: Busy(w, t) ==> t in s.ring && t != Sched.IDLE && t in s.state && s.state[t] != Sched.Dead)
    && (forall m: nat, t: nat :: t in Box(w.mutex, m).waiters ==> t in s.state && s.state[t] == Sched.Blocked)
  }

  ghost predicate Inv(j: System) {
    && Sched.Inv(j.s) && RtosRuns.Inv(j.w) && Joined(j.s, j.w) && OnlyWaiters(j.s, j.w)
    && j.s.ring != [] && j.s.ring[0] in j.s.state && j.s.state[j.s.ring[0]] != Sched.Blocked
  }

  /** What a call of `schedule` needs, and leaves. */
  lemma Rescheduled(s: Sched.Tasks, w: World)
    requires Sched.Leaving(s) && RtosRuns.Inv(w) && Joined(s, w) && OnlyWaiters(s, w)
    ensures s.ring != [] && s.ring[0] in s.state && Sched.Known(Sched.Reap(s), Sched.Order(s)) && Sched.IDLE in s.ring
    ensures Inv(System(Sched.Schedule(s), w))
  {
    Sched.ScheduleInv(s);
    var s' := Sched.Schedule(s);
    RingAfter(s);
    forall t: nat | Busy(w, t) ensures t in s'.ring && t != Sched.IDLE && t in s'.state && s'.state[t] != Sched.Dead {
      assert Stays(s, s', t);
    }
    forall m: nat, t: nat | t in Box(w.mutex, m).waiters ensures t in s'.state && s'.state[t] == Sched.Blocked {
      assert Busy(w, t) && Stays(s, s', t);
    }
    forall t | t in s'.ring && t in s'.state && s'.state[t] == Sched.Blocked ensures Waiting(w, t) {
      assert t in s.ring;
      Sched.ScheduleStates(s, t);
    }
  }

  /** Only a dead task has left the cycle, and nothing but idle has been unblocked. */
  ghost predicate Kept(s: Sched.Tasks, s': Sched.Tasks) {
    && s'.prio == s.prio
    && (forall t :: t in s'.ring ==> t in s.ring)
    && (forall t :: t in s.ring && t in s.state && s.state[t] != Sched.Dead ==> Stays(s, s', t))
  }

  ghost predicate Stays(s: Sched.Tasks, s': Sched.Tasks, t: nat)
    requires t in s.state
  {
    && t in s'.ring && t in s'.state && s'.state[t] != Sched.Dead
    && (t != Sched.IDLE && s.state[t] == Sched.Blocked ==> s'.state[t] == Sched.Blocked)
  }

  /** `schedule` drops only a dead task, and runs nothing that is blocked except idle. */
  lemma RingAfter(s: Sched.Tasks)
    requires Sched.Leaving(s)
    ensures s.ring != [] && s.ring[0] in s.state && Sched.Known(Sched.Reap(s), Sched.Order(s)) && Sched.IDLE in s.ring
    ensures Kept(s, Sched.Schedule(s))
  {
    Sched.LeavingKnown(s);
    Sched.PickInRing(Sched.Reap(s));
    var next := PickAwake(s);
    if next != s.ring[0] { Switched(Sched.Reap(s), next); }
  }

  lemma PickAwake(s: Sched.Tasks) returns (next: nat)
    requires Sched.Leaving(s)
    ensures s.ring != [] && Sched.Known(Sched.Reap(s), Sched.Order(s)) && next == Sched.Pick(Sched.Reap(s))
    ensures next == Sched.IDLE || (next in s.state && s.state[next] != Sched.Blocked)
  {
    Sched.LeavingKnown(s);
    var r := Sched.Reap(s);
    Sched.ScanIs(r, Sched.Order(r));
    next := Sched.Pick(r);
  }

  lemma Switched(s: Sched.Tasks, next: nat)
    requires s.ring != [] && Distinct(s.ring) && next in s.ring[1..] && s.ring[0] in s.state
    requires next == Sched.IDLE || (next in s.state && s.state[next] != Sched.Blocked)
    ensures Kept(s, Sched.SwitchTo(s, next))
  {
    var s' := Sched.SwitchTo(s, next);
    SwitchedRing(s, next);
    forall t | t in s.ring && t in s.state && s.state[t] != Sched.Dead ensures Stays(s, s', t) {}
  }

  lemma SwitchedRing(s: Sched.Tasks, next: nat)
    requires s.ring != [] && Distinct(s.ring) && next in s.ring[1..] && s.ring[0] in s.state
    ensures var s' := Sched.SwitchTo(s, next);
      forall t :: t in s'.ring <==> t in s.ring && (t == s.ring[0] ==> s.state[t] != Sched.Dead)
  {
    var k := Sched.IndexOf(s.ring[1..], next);
    Sched.FirstApart(s.ring);
    if s.state[s.ring[0]] == Sched.Dead {
      Sched.TurnKeeps(s.ring[1..], k);
    } else {
      Sched.TurnKeeps(s.ring, k + 1);
    }
  }

  // ---------------------------------------------------------------------
  // Each step
  // ---------------------------------------------------------------------

  /** A task that runs and is still in its lock call has been handed the mutex. */
  lemma HandedOver(j: System)
    requires Inv(j) && Note(j.w.blockedOn, j.s.ring[0]).Some?
    ensures RtosRuns.Legal(j.w, RtosRuns.DoResume(j.s.ring[0]))
    ensures Box(j.w.mutex, Note(j.w.blockedOn, j.s.ring[0]).value).owner == Some(j.s.ring[0])
  {
  }

  lemma EnrolInv(w: World, t: nat, prio: nat)
    requires RtosRuns.Inv(w) && !Busy(w, t)
    ensures RtosRuns.Inv(Enrol(w, t, prio))
  {
    RtosRuns.Idle(w, t);
    var w' := Enrol(w, t, prio);
    forall m: nat ensures RtosRuns.QueueOk(Box(w'.mutex, m), w'.base, w'.ticket) {
      var q := Box(w.mutex, m).waiters;
      assert RtosRuns.QueueOk(Box(w.mutex, m), w.base, w.ticket);
      forall a, b | 0 <= a < b < |q| ensures RtosRuns.Before(w'.base, w'.ticket, q[a], q[b]) {
        assert q[a] in q && q[b] in q && RtosRuns.Before(w.base, w.ticket, q[a], q[b]);
      }
    }
    forall m: nat | Box(w.mutex, m).owner.Some?
      ensures var b := Box(w.mutex, m); At(w'.prio, b.owner.value) == RtosRuns.Due(w'.base, b.owner.value, b.waiters)
    {
      var q := Box(w.mutex, m).waiters;
      assert q != [] ==> q[0] in q;
    }
  }

  lemma SpawnReady(j: System, prio: nat)
    requires Inv(j)
    ensures Ready(j, Spawn(prio))
  {
    var t := j.s.nextPid;
    Sched.CreateInv(j.s, prio);
    assert t !in j.s.ring;
    EnrolInv(j.w, t, prio);
    JoinedSpawn(j.s, j.w, prio);
    WaitersSame(j.s, j.w, Sched.Create(j.s, prio), Enrol(j.w, t, prio), t);
  }

  /** Apart from t, which is not blocked, nothing has changed about who is blocked and who waits. */
  lemma WaitersSame(s: Sched.Tasks, w: World, s': Sched.Tasks, w': World, t: nat)
    requires OnlyWaiters(s, w) && w'.mutex == w.mutex && t in s'.state && s'.state[t] != Sched.Blocked
    requires forall x :: x in s'.ring && x in s'.state && x != t ==>
      x in s.ring && x in s.state && s'.state[x] == s.state[x] && Note(w'.blockedOn, x) == Note(w.blockedOn, x)
    ensures OnlyWaiters(s', w')
  {
  }

  lemma JoinedSpawn(s: Sched.Tasks, w: World, prio: nat)
    requires Joined(s, w) && s.nextPid !in s.ring && Noted(w.mutex, w.blockedOn)
    ensures Joined(Sched.Create(s, prio), Enrol(w, s.nextPid, prio))
  {
    var s', w' := Sched.Create(s, prio), Enrol(w, s.nextPid, prio);
    forall t: nat | Busy(w', t) ensures t in s'.ring && t != Sched.IDLE && t in s'.state && s'.state[t] != Sched.Dead {
      assert Busy(w, t);
    }
    forall m: nat, t: nat | t in Box(w'.mutex, m).waiters ensures t in s'.state && s'.state[t] == Sched.Blocked {
      assert t in Box(w.mutex, m).waiters && Busy(w, t);
    }
  }

  lemma AcquireReady(j: System, m: nat)
    requires Inv(j) && Legal(j, Acquire(m))
    ensures Ready(j, Acquire(m))
  {
    var me, w := j.s.ring[0], j.w;
    RtosRuns.StepInv(w, RtosRuns.DoLock(me, m));
    if Box(w.mutex, m).owner.None? {
      JoinedTake(j.s, w, me, m);
      WaitersTake(j.s, w, me, m);
    } else {
      LeavingMirror(j.s, Lock(w, me, m), Sched.Blocked);
      JoinedContend(j.s, w, me, m);
      WaitersContend(j.s, w, me, m);
    }
  }

  lemma WaitersTake(s: Sched.Tasks, w: World, me: nat, m: nat)
    requires OnlyWaiters(s, w) && Box(w.mutex, m).owner.None?
    ensures OnlyWaiters(s, Lock(w, me, m))
  {
    var w' := Lock(w, me, m);
    forall t | t in s.ring && t in s.state && s.state[t] == Sched.Blocked ensures Waiting(w', t) {
      assert Waiting(w, t);
      BoxTaken(w, me, m, Note(w.blockedOn, t).value);
    }
  }

  lemma BoxTaken(w: World, me: nat, m: nat, n: nat)
    requires Box(w.mutex, m).owner.None?
    ensures Box(Lock(w, me, m).mutex, n).waiters == Box(w.mutex, n).waiters
  {
  }

  lemma WaitersContend(s: Sched.Tasks, w: World, me: nat, m: nat)
    requires OnlyWaiters(s, w) && Box(w.mutex, m).owner.Some? && me in s.state
    ensures OnlyWaiters(Mirror(s, Lock(w, me, m)).(state := s.state[me := Sched.Blocked]), Lock(w, me, m))
  {
    var w' := Lock(w, me, m);
    QueuedBox(w, me, m);
    InsertMembers(Box(w.mutex, m).waiters, me, w.prio);
    forall t | t in s.ring && t in s.state && (t == me || s.state[t] == Sched.Blocked) ensures Waiting(w', t) {
      if t != me { assert Waiting(w, t); }
    }
  }

  lemma JoinedTake(s: Sched.Tasks, w: World, me: nat, m: nat)
    requires Joined(s, w) && Box(w.mutex, m).owner.None? && me in s.ring && me != Sched.IDLE
    requires s.state[me] != Sched.Dead
    ensures Joined(s, Lock(w, me, m))
  {
    var w' := Lock(w, me, m);
    assert forall m': nat :: Box(w'.mutex, m').waiters == Box(w.mutex, m').waiters;
    forall t: nat | Busy(w', t) ensures t in s.ring && t != Sched.IDLE && t in s.state && s.state[t] != Sched.Dead {
      if t != me { assert Busy(w, t); }
    }
  }

  lemma JoinedContend(s: Sched.Tasks, w: World, me: nat, m: nat)
    requires Joined(s, w) && Box(w.mutex, m).owner.Some? && me in s.ring && me != Sched.IDLE
    ensures Joined(Mirror(s, Lock(w, me, m)).(state := s.state[me := Sched.Blocked]), Lock(w, me, m))
  {
    var w' := Lock(w, me, m);
    QueuedBox(w, me, m);
    InsertMembers(Box(w.mutex, m).waiters, me, w.prio);
    forall t: nat | Busy(w', t) ensures t in s.ring && t != Sched.IDLE { if t != me { assert Busy(w, t); } }
  }

  lemma LeavingMirror(s: Sched.Tasks, w: World, st: Sched.State)
    requires Sched.Inv(s) && st != Sched.Dead
    ensures s.ring != [] && Sched.Leaving(Mirror(s, w).(state := s.state[s.ring[0] := st]))
  {
    Sched.InvLeaving(s, st);
  }

  lemma ReleaseReady(j: System, m: nat)
    requires Inv(j) && Legal(j, Release(m))
    ensures Ready(j, Release(m))
  {
    var s, me, w, q := j.s, j.s.ring[0], j.w, Box(j.w.mutex, m).waiters;
    RtosRuns.StepInv(w, RtosRuns.DoUnlock(me, m));
    assert RtosRuns.QueueOk(Box(w.mutex, m), w.base, w.ticket);
    if q == [] {
      JoinedFree(s, w, me, m);
      WaitersFree(s, w, me, m);
    } else {
      LeavingMirror(s, Unlock(w, me, m), s.state[me]);
      assert s.state == s.state[me := s.state[me]];
      assert q[0] in q && Busy(w, q[0]) && q[0] != me;
      JoinedHand(s, w, me, m);
      WaitersHand(s, w, me, m);
      LeavingWake(Mirror(s, Unlock(w, me, m)), q[0]);
    }
  }

  lemma WaitersFree(s: Sched.Tasks, w: World, me: nat, m: nat)
    requires OnlyWaiters(s, w) && Box(w.mutex, m).waiters == []
    ensures OnlyWaiters(Mirror(s, Unlock(w, me, m)), Unlock(w, me, m))
  {
    var w' := Unlock(w, me, m);
    RtosRuns.UnlockBox(w, me, m);
    forall t | t in s.ring && t in s.state && s.state[t] == Sched.Blocked ensures Waiting(w', t) {
      assert Waiting(w, t);
    }
  }

  /** The task that is handed the mutex is the one that is no longer blocked. */
  lemma WaitersHand(s: Sched.Tasks, w: World, me: nat, m: nat)
    requires OnlyWaiters(s, w) && Joined(s, w) && Box(w.mutex, m).waiters != [] && Distinct(Box(w.mutex, m).waiters)
    ensures OnlyWaiters(Sched.Wake(Mirror(s, Unlock(w, me, m)), Box(w.mutex, m).waiters[0]), Unlock(w, me, m))
  {
    var w', q := Unlock(w, me, m), Box(w.mutex, m).waiters;
    var s' := Sched.Wake(Mirror(s, w'), q[0]);
    RtosRuns.UnlockBox(w, me, m);
    TailMembers(q);
    assert q[0] in q && s.state[q[0]] == Sched.Blocked;
    forall t | t in s'.ring && t in s'.state && s'.state[t] == Sched.Blocked ensures Waiting(w', t) {
      assert t != q[0] && Waiting(w, t);
    }
  }

  lemma JoinedFree(s: Sched.Tasks, w: World, me: nat, m: nat)
    requires Joined(s, w) && Box(w.mutex, m).waiters == []
    ensures Joined(Mirror(s, Unlock(w, me, m)), Unlock(w, me, m))
  {
    var w' := Unlock(w, me, m);
    RtosRuns.UnlockBox(w, me, m);
    forall t: nat | Busy(w', t) ensures Busy(w, t) {}
  }

  lemma JoinedHand(s: Sched.Tasks, w: World, me: nat, m: nat)
    requires Joined(s, w) && Noted(w.mutex, w.blockedOn) && Box(w.mutex, m).waiters != []
    requires Distinct(Box(w.mutex, m).waiters)
    ensures Joined(Sched.Wake(Mirror(s, Unlock(w, me, m)), Box(w.mutex, m).waiters[0]), Unlock(w, me, m))
  {
    var w', q := Unlock(w, me, m), Box(w.mutex, m).waiters;
    var s' := Sched.Wake(Mirror(s, w'), q[0]);
    RtosRuns.UnlockBox(w, me, m);
    TailMembers(q);
    assert q[0] in q && Note(w.blockedOn, q[0]) == Some(m);
    forall t: nat | Busy(w', t) ensures Busy(w, t) {}
    forall m': nat, t: nat | t in Box(w'.mutex, m').waiters ensures t in s'.state && s'.state[t] == Sched.Blocked {
      assert t in Box(w.mutex, m').waiters && t != q[0];
    }
  }

  lemma LeavingWake(s: Sched.Tasks, t: nat)
    requires Sched.Leaving(s) && t in s.ring
    ensures Sched.Leaving(Sched.Wake(s, t))
  {
  }

  lemma TickReady(j: System)
    requires Inv(j)
    ensures Ready(j, Tick)
  {
    Sched.InvLeaving(j.s, Sched.Ready);
  }

  /** The running task leaves or sleeps. */
  lemma StopReady(j: System, e: Event)
    requires Inv(j) && Legal(j, e) && (e == Leave || e == Nap)
    ensures Ready(j, e)
  {
    var me, st := j.s.ring[0], if e == Leave then Sched.Dead else Sched.Sleeping;
    Sched.InvLeaving(j.s, st);
    JoinedStop(j.s, j.w, me, st);
    WaitersSame(j.s, j.w, j.s.(state := j.s.state[me := st]), j.w, me);
  }

  lemma JoinedStop(s: Sched.Tasks, w: World, me: nat, st: Sched.State)
    requires Joined(s, w) && Noted(w.mutex, w.blockedOn) && Note(w.blockedOn, me).None?
    requires st != Sched.Dead || !Busy(w, me)
    ensures Joined(s.(state := s.state[me := st]), w)
  {
  }

  lemma RouseReady(j: System, t: nat)
    requires Inv(j) && Legal(j, Rouse(t))
    ensures Ready(j, Rouse(t))
  {
    Sched.StepInv(j.s, Sched.DoWake(t));
    WaitersSame(j.s, j.w, Sched.Wake(j.s, t), j.w, t);
  }

  lemma ReturnReady(j: System)
    requires Inv(j) && Legal(j, Return)
    ensures Ready(j, Return)
  {
    HandedOver(j);
    RtosRuns.StepInv(j.w, RtosRuns.DoResume(j.s.ring[0]));
    forall t: nat | Busy(Resume(j.w, j.s.ring[0]), t) ensures Busy(j.w, t) {}
    WaitersSame(j.s, j.w, j.s, Resume(j.w, j.s.ring[0]), j.s.ring[0]);
  }

  /** The step leaves what `schedule` needs, or the invariant if it does not call it. */
  ghost predicate Ready(j: System, e: Event)
    requires j.s.ring != []
  {
    var (s, w, calls) := Before(j, e);
    if calls then Sched.Leaving(s) && RtosRuns.Inv(w) && Joined(s, w) && OnlyWaiters(s, w) else Inv(System(s, w))
  }

  lemma StepReady(j: System, e: Event)
    requires Inv(j) && Legal(j, e)
    ensures Ready(j, e)
  {
    match e
    case Tick => TickReady(j);
    case Spawn(prio) => SpawnReady(j, prio);
    case Leave => StopReady(j, e);
    case Nap => StopReady(j, e);
    case Rouse(t) => RouseReady(j, t);
    case Acquire(m) => AcquireReady(j, m);
    case Return => ReturnReady(j);
    case Release(m) => ReleaseReady(j, m);
  }

  /** Every step keeps the scheduler's invariant, the mutexes', and what joins them. */
  lemma StepInv(j: System, e: Event)
    requires Inv(j) && Legal(j, e)
    ensures Inv(Apply(j, e))
  {
    StepReady(j, e);
    var (s, w, calls) := Before(j, e);
    if calls { Rescheduled(s, w); }
  }

  /** What each event does for the task that runs, and for the one it concerns. */
  ghost predicate Works(j: System, e: Event, j': System)
    requires j.s.ring != [] && j'.s.ring != []
  {
    var me := j.s.ring[0];
    match e
    case Tick => true
    case Spawn(prio) =>
      var t := j.s.nextPid;
      && t !in j.s.ring && j'.s.ring == j.s.ring + [t] && t in j'.s.state && j'.s.state[t] == Sched.Ready
      && At(j'.w.base, t) == prio == At(j'.w.prio, t)
    case Leave => me !in j'.s.ring
    case Nap => me != Sched.IDLE ==> me in j'.s.ring && me in j'.s.state && j'.s.state[me] == Sched.Sleeping
    case Rouse(t) => t in j'.s.state && j'.s.state[t] == Sched.Ready
    case Acquire(m) =>
      if Box(j.w.mutex, m).owner.None? then
        Box(j'.w.mutex, m).owner == Some(me) && Note(j'.w.holding, me) == Some(m) && j'.s.ring[0] == me
      else
        && me in Box(j'.w.mutex, m).waiters && Box(j'.w.mutex, m).owner == Box(j.w.mutex, m).owner
        && me in j'.s.state && j'.s.state[me] == Sched.Blocked && j'.s.ring[0] != me
    case Return =>
      && Note(j.w.blockedOn, me).Some? && Note(j'.w.holding, me) == Note(j.w.blockedOn, me)
      && Note(j'.w.blockedOn, me).None? && Box(j'.w.mutex, Note(j.w.blockedOn, me).value).owner == Some(me)
    case Release(m) =>
      var q := Box(j.w.mutex, m).waiters;
      && Note(j'.w.holding, me).None?
      && Box(j'.w.mutex, m) == (if q == [] then Mutex(None, []) else Mutex(Some(q[0]), q[1..]))
      && (q != [] ==> q[0] in j'.s.ring && q[0] in j'.s.state && Sched.Runnable(j'.s, q[0]))
  }

  /** Every event does what it is for. */
  lemma EventWorks(j: System, e: Event)
    requires Inv(j) && Legal(j, e)
    ensures Apply(j, e).s.ring != [] && Works(j, e, Apply(j, e))
  {
    StepReady(j, e);
    StepInv(j, e);
    match e
    case Tick =>
    case Spawn(_) =>
    case Leave => Sched.ScheduleStates(Before(j, e).0, j.s.ring[0]);
    case Nap => NapWorks(j);
    case Rouse(_) =>
    case Acquire(m) => AcquireWorks(j, m);
    case Return => HandedOver(j);
    case Release(m) => ReleaseWorks(j, m);
  }

  lemma NapWorks(j: System)
    requires Inv(j) && Legal(j, Nap)
    ensures Apply(j, Nap).s.ring != [] && Works(j, Nap, Apply(j, Nap))
  {
    StepReady(j, Nap);
    StepInv(j, Nap);
    var s, me := Before(j, Nap).0, j.s.ring[0];
    Sched.ScheduleStates(s, me);
    if me != Sched.IDLE { Sched.NotPicked(s); }
  }

  lemma AcquireWorks(j: System, m: nat)
    requires Inv(j) && Legal(j, Acquire(m))
    ensures Apply(j, Acquire(m)).s.ring != [] && Works(j, Acquire(m), Apply(j, Acquire(m)))
  {
    var me := j.s.ring[0];
    StepReady(j, Acquire(m));
    StepInv(j, Acquire(m));
    if Box(j.w.mutex, m).owner.Some? {
      var s := Before(j, Acquire(m)).0;
      Sched.ScheduleStates(s, me);
      Sched.NotPicked(s);
      QueuedBox(j.w, me, m);
      InsertMembers(Box(j.w.mutex, m).waiters, me, j.w.prio);
    }
  }

  lemma ReleaseWorks(j: System, m: nat)
    requires Inv(j) && Legal(j, Release(m))
    ensures Apply(j, Release(m)).s.ring != [] && Works(j, Release(m), Apply(j, Release(m)))
  {
    var me, q := j.s.ring[0], Box(j.w.mutex, m).waiters;
    StepReady(j, Release(m));
    StepInv(j, Release(m));
    RtosRuns.UnlockBox(j.w, me, m);
    if q != [] {
      assert q[0] in q && Busy(j.w, q[0]);
      Sched.ScheduleStates(Before(j, Release(m)).0, q[0]);
    }
  }

  // ---------------------------------------------------------------------
  // Whole runs
  // ---------------------------------------------------------------------

  function Boot(): (j: System) {
    System(Sched.Start(), Fresh(map[Sched.IDLE := 0]))
  }

  ghost predicate LegalRun(j: System, events: seq<Event>)
    requires Inv(j)
    decreases |events|
  {
    events != [] ==> Legal(j, events[0]) && (StepInv(j, events[0]); LegalRun(Apply(j, events[0]), events[1..]))
  }

  ghost function Run(j: System, events: seq<Event>): (j': System)
    requires Inv(j) && LegalRun(j, events)
    ensures Inv(j')
    decreases |events|
  {
    if events == [] then j else
      StepInv(j, events[0]);
      Run(Apply(j, events[0]), events[1..])
  }

  lemma BootInv()
    ensures Inv(Boot())
  {
    RtosRuns.FreshInv(map[Sched.IDLE := 0]);
  }

  /**
   Exactly the waiters are blocked: a task that runs in its lock call owns the mutex, and
   no task stays blocked once it has been handed one. No two tasks hold the same mutex; the
   scheduler sees the priorities the mutexes set; and no owner ranks below a task waiting
   for it.
   */
  ghost predicate Sound(j: System) {
    && (forall m: nat, t: nat :: t in Box(j.w.mutex, m).waiters ==> t in j.s.state && j.s.state[t] == Sched.Blocked)
    && OnlyWaiters(j.s, j.w)
    && j.s.ring != [] && (var me := j.s.ring[0];
         Note(j.w.blockedOn, me).Some? ==> Box(j.w.mutex, Note(j.w.blockedOn, me).value).owner == Some(me))
    && (forall m: nat, a: nat, b: nat :: Note(j.w.holding, a) == Some(m) && Note(j.w.holding, b) == Some(m) ==> a == b)
    && (forall t :: t in j.s.ring ==> t in j.s.prio && j.s.prio[t] == At(j.w.prio, t))
    && Inherited(j.w.mutex, j.w.prio)
  }

  lemma InvSound(j: System)
    requires Inv(j)
    ensures Sound(j)
  {
    RtosRuns.InvInherited(j.w);
    if Note(j.w.blockedOn, j.s.ring[0]).Some? { HandedOver(j); }
  }

  /** That holds after every run from start-up. */
  lemma EveryRun(events: seq<Event>)
    requires Inv(Boot()) ==> LegalRun(Boot(), events)
    ensures Inv(Boot()) && Sound(Run(Boot(), events))
  {
    BootInv();
    InvSound(Run(Boot(), events));
  }

  /**
   No unbounded inversion in any state a run can reach: if the owner of a mutex can run,
   `schedule` picks a task that ranks no lower than any task waiting for that mutex.
   */
  lemma NoInversion(events: seq<Event>, m: nat, t: nat, o: nat)
    requires Inv(Boot()) ==> LegalRun(Boot(), events)
    ensures Inv(Boot())
    ensures var j := Run(Boot(), events);
      Waits(j.w.mutex, m, t, o) && CanRun(j, o) ==> Chosen(j).Some? && At(j.w.prio, t) <= At(j.s.prio, Chosen(j).value)
  {
    BootInv();
    var j := Run(Boot(), events);
    if Waits(j.w.mutex, m, t, o) && CanRun(j, o) { PicksAbove(j, m, t, o); }
  }

  ghost predicate CanRun(j: System, t: nat) {
    t in j.s.ring && t in j.s.state && Sched.Runnable(j.s, t)
  }

  /** What `schedule` would pick now. */
  ghost function Chosen(j: System): (t: Option<nat>) {
    var r := Sched.Reap(j.s);
    if r.ring != [] && Sched.Known(r, Sched.Order(r)) then Some(Sched.Pick(r)) else None
  }

  lemma PicksAbove(j: System, m: nat, t: nat, o: nat)
    requires Inv(j) && Waits(j.w.mutex, m, t, o) && CanRun(j, o)
    ensures Chosen(j).Some? && At(j.w.prio, t) <= At(j.s.prio, Chosen(j).value)
  {
    RtosRuns.InvInherited(j.w);
    Sched.InvLeaving(j.s, Sched.Ready);
    Sched.PicksHighest(j.s, o);
  }
}
