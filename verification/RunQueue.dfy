/** The scheduler as it runs: `next` links walked and rewritten, a dead list popped, states updated. */
module RunQueue {
  import opened Arith
  import opened Links
  import opened Sched

  /** From the first task of the ring round to it again. */
  ghost predicate Cycle(next: map<nat, int>, ring: seq<nat>) {
    ring != [] && Path(next, ring, ring[0])
  }

  lemma CycleTurn(next: map<nat, int>, ring: seq<nat>, k: nat)
    requires Cycle(next, ring) && k <= |ring|
    ensures Cycle(next, Turn(ring, k))
  {
    if 0 < k < |ring| {
      PathSplit(next, ring, k, ring[0]);
      PathJoin(next, ring[k..], ring[..k], ring[k]);
    } else {
      assert Turn(ring, k) == ring;
    }
  }

  lemma CycleAppend(next: map<nat, int>, ring: seq<nat>, t: nat)
    requires Cycle(next, ring) && Distinct(ring) && t !in ring
    ensures Cycle(next[ring[|ring| - 1] := t][t := ring[0]], ring + [t])
  {
    var n1 := next[ring[|ring| - 1] := t];
    PathEnd(next, ring, ring[0], t);
    PathFrame(n1, n1[t := ring[0]], ring, t);
    PathJoin(n1[t := ring[0]], ring, [t], ring[0]);
  }

  /** Pointing the first task's predecessor past it takes it out of the cycle. */
  lemma CycleDropFirst(next: map<nat, int>, ring: seq<nat>, d: int)
    requires Cycle(next, ring) && |ring| >= 2 && Distinct(ring)
    ensures Cycle(next[ring[|ring| - 1] := Follow(next, ring[0])][ring[0] := d], ring[1..])
  {
    var rest := ring[1..];
    assert Follow(next, ring[0]) == After(ring, 0, ring[0]);
    PathSplit(next, ring, 1, ring[0]);
    PathEnd(next, rest, ring[0], rest[0]);
    var n1 := next[rest[|rest| - 1] := rest[0]];
    PathFrame(n1, n1[ring[0] := d], rest, rest[0]);
  }

  class Scheduler {
    var next: map<nat, int>
    var state: map<nat, State>
    var prio: map<nat, nat>
    var current: nat
    var deadList: int
    var nextPid: nat
    ghost var ring: seq<nat>
    ghost var dead: seq<nat>
    ghost var reaped: seq<nat>

    ghost function View(): (s: Tasks)
      reads this
    {
      Tasks(ring, dead, reaped, state, prio, nextPid)
    }

    /** The links hold the ring from the running task and the dead list. */
    ghost predicate Linked()
      reads this
    {
      && ring != [] && current == ring[0]
      && Cycle(next, ring)
      && List(next, deadList, dead)
    }

    ghost predicate Apart()
      reads this
    {
      Distinct(ring) && forall x :: x in dead ==> x !in ring
    }

    /** Valid at every point where a task may be rescheduled, one that is exiting included. */
    ghost predicate Valid()
      reads this
    {
      Linked() && Leaving(View())
    }

    constructor ()
      ensures Valid() && View() == Start()
    {
      next, state, prio := map[IDLE := IDLE], map[IDLE := Ready], map[IDLE := 0];
      current, deadList, nextPid := IDLE, NULL, 1;
      ring, dead, reaped := [IDLE], [], [];
    }

    /** Walk to the task before the running one and insert there. */
    method CreateTask(priority: nat) returns (pid: nat)
      requires Linked() && Inv(View())
      modifies this
      ensures Linked() && View() == Create(old(View()), priority) && pid == old(nextPid)
    {
      var tail := FindLast(current);
      pid := nextPid;
      CycleAppend(next, ring, pid);
      PathFrame(next, next[tail := pid][pid := current], dead, NULL);
      next := next[tail := pid][pid := current];
      state, prio := state[pid := Ready], prio[pid := priority];
      nextPid := nextPid + 1;
      ring := ring + [pid];
    }

    /** The task whose link leads back to t. */
    method FindLast(t: nat) returns (p: nat)
      requires Linked() && Distinct(ring) && t in ring
      ensures var k := IndexOf(ring, t); p == Turn(ring, k)[|ring| - 1]
    {
      ghost var r := Turn(ring, IndexOf(ring, t));
      CycleTurn(next, ring, IndexOf(ring, t));
      TurnKeeps(ring, IndexOf(ring, t));
      p := t;
      ghost var i := 0;
      while Follow(next, p) != t
        invariant 0 <= i < |r| && p == r[i]
        decreases |r| - i
      {
        assert Follow(next, r[i]) == After(r, i, r[0]);
        p := Follow(next, p);
        i := i + 1;
      }
      assert Follow(next, r[i]) == After(r, i, r[0]);
    }

    /** Pop the dead list until it is empty. */
    method ReapAll()
      requires Linked()
      modifies this`deadList, this`dead, this`reaped
      ensures Linked() && View() == Reap(old(View()))
    {
      while deadList != NULL
        invariant Linked() && old(reaped + dead) == reaped + dead
        decreases |dead|
      {
        assert Follow(next, dead[0]) == After(dead, 0, NULL);
        deadList := Follow(next, deadList);
        if |dead| > 1 { PathSplit(next, dead, 1, NULL); }
        reaped, dead := reaped + [dead[0]], dead[1..];
      }
    }

    /** Scan once round the cycle from the task after the running one. */
    method PickNext() returns (best: nat)
      requires Linked() && Distinct(ring) && Known(View(), Order(View()))
      ensures best == Pick(View())
    {
      ghost var o := Order(View());
      CycleTurn(next, ring, 1);
      TurnKeeps(ring, 1);
      assert o == Turn(ring, 1);
      assert Follow(next, ring[0]) == After(ring, 0, ring[0]) == o[0];
      best := IDLE;
      var bestPri: int := -1;
      var first := Follow(next, current);
      var t := first;
      ghost var i := 0;
      while true
        invariant 0 <= i < |o| && t == o[i] && (best, bestPri) == Scan(View(), o[..i])
        decreases |o| - i
      {
        var runnable := state[t] == Ready || (t == current && state[t] == Running);
        ScanStep(View(), o, i);
        if runnable && prio[t] > bestPri {
          bestPri, best := prio[t], t;
        }
        assert Follow(next, o[i]) == After(o, i, o[0]);
        t := Follow(next, t);
        i := i + 1;
        if t == first {
          assert o[..i] == o;
          return;
        }
      }
    }

    method DoSchedule()
      requires Valid()
      modifies this
      ensures Linked() && Inv(View()) && View() == Schedule(old(View())) && PassesOn(old(View()), View())
    {
      ScheduleInv(View());
      SchedulePasses(View());
      ReapLeaving(View());
      ReapAll();
      LeavingKnown(View());
      PickInRing(View());
      var prev := current;
      var best := PickNext();
      if best == prev {
        if state[prev] != Running {
          state := state[prev := Running];
        }
        assert state == old(state)[prev := Running];
        return;
      }
      SwitchLinks(best);
    }

    /** Hand the processor to `best`, unlinking a running task that has died. */
    method SwitchLinks(best: nat)
      requires Linked() && Apart() && current in state && best in ring[1..]
      modifies this
      ensures Linked() && View() == SwitchTo(old(View()), best)
    {
      if state[current] == Dead {
        SwitchFromDead(best);
      } else {
        SwitchFromLive(best);
      }
    }

    method SwitchFromDead(best: nat)
      requires Linked() && Apart() && current in state && best in ring[1..] && state[current] == Dead
      modifies this
      ensures Linked() && View() == SwitchTo(old(View()), best)
    {
      ghost var k := IndexOf(ring[1..], best);
      Bury(current);
      assert Turn(ring, 0)[1..] == ring[1..];
      CycleTurn(next, ring[1..], k);
      ring := Turn(ring[1..], k);
      state := state[best := Running];
      current := best;
    }

    method SwitchFromLive(best: nat)
      requires Linked() && current in state && best in ring[1..] && state[current] != Dead
      modifies this
      ensures Linked() && View() == SwitchTo(old(View()), best)
    {
      ghost var k := IndexOf(ring[1..], best);
      if state[current] == Running {
        state := state[current := Ready];
      }
      CycleTurn(next, ring, k + 1);
      ring := Turn(ring, k + 1);
      state := state[best := Running];
      current := best;
    }

    /** Take t out of the cycle and push it onto the dead list. */
    method Bury(t: nat)
      requires Linked() && Apart() && t in ring && |ring| >= 2
      modifies this`next, this`deadList, this`dead
      ensures Cycle(next, Turn(ring, IndexOf(ring, t))[1..])
      ensures dead == [t] + old(dead) && List(next, deadList, dead)
    {
      ghost var r := Turn(ring, IndexOf(ring, t));
      CycleTurn(next, ring, IndexOf(ring, t));
      TurnKeeps(ring, IndexOf(ring, t));
      var p := FindLast(t);
      CycleDropFirst(next, r, deadList);
      PathFrame(next, next[p := Follow(next, t)], dead, NULL);
      next := next[p := Follow(next, t)];
      ListPush(next, deadList, dead, t);
      next := next[t := deadList];
      deadList := t;
      dead := [t] + dead;
    }

    method DoExit()
      requires Linked() && Inv(View()) && current != IDLE
      modifies this
      ensures Linked() && Inv(View()) && View() == Exit(old(View()))
    {
      InvLeaving(View(), Dead);
      state := state[current := Dead];
      DoSchedule();
    }

    /** Look the pid up from idle round the cycle, then bury its task or exit if it is the caller. */
    method DoKill(pid: nat) returns (ok: bool)
      requires Linked() && Inv(View())
      modifies this
      ensures Linked() && Inv(View())
      ensures (View(), ok) == Kill(old(View()), pid)
    {
      KillInv(View(), pid);
      if pid == 0 {
        return false;
      }
      var found := Find(pid);
      if !found || state[pid] == Dead {
        return false;
      }
      if pid == current {
        DoExit();
        return true;
      }
      BuryOther(pid);
      return true;
    }

    method BuryOther(pid: nat)
      requires Linked() && Apart() && pid in ring && pid != current
      modifies this
      ensures Linked()
      ensures var s := old(View());
        View() == s.(ring := Without(s.ring, pid), dead := [pid] + s.dead, state := s.state[pid := Dead])
    {
      WithoutTurns(ring, pid);
      ghost var k := IndexOf(ring, pid);
      assert k > 0;
      Bury(pid);
      CycleTurn(next, Turn(ring, k)[1..], |ring| - k - 1);
      state := state[pid := Dead];
      ring := Without(ring, pid);
    }

    method Find(pid: nat) returns (found: bool)
      requires Linked() && Distinct(ring) && IDLE in ring
      ensures found <==> pid in ring
    {
      ghost var r := Turn(ring, IndexOf(ring, IDLE));
      CycleTurn(next, ring, IndexOf(ring, IDLE));
      TurnKeeps(ring, IndexOf(ring, IDLE));
      var t := IDLE;
      ghost var i := 0;
      while true
        invariant 0 <= i < |r| && t == r[i] && pid !in r[..i]
        decreases |r| - i
      {
        if t == pid {
          return true;
        }
        assert Follow(next, r[i]) == After(r, i, r[0]);
        t := Follow(next, t);
        i := i + 1;
        if t == IDLE {
          assert i == |r| && r[..i] == r;
          return false;
        }
      }
    }
  }

  lemma ScanStep(s: Tasks, o: seq<nat>, i: nat)
    requires Known(s, o) && i < |o|
    ensures var was := Scan(s, o[..i]);
      Scan(s, o[..i + 1]) == if Runnable(s, o[i]) && s.prio[o[i]] > was.1 then (o[i], s.prio[o[i]]) else was
  {
    assert o[..i + 1][..i] == o[..i];
  }

  lemma WithoutTurns(ring: seq<nat>, t: nat)
    requires t in ring
    ensures var k := IndexOf(ring, t);
      |Turn(ring, k)[1..]| == |ring| - 1 && Without(ring, t) == Turn(Turn(ring, k)[1..], |ring| - k - 1)
  {
  }
}
