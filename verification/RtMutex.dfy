/** The mutexes as they run: wait queues threaded through `waitNext`, priorities raised in a loop. */
module RtMutex {
  import opened Arith
  import opened Common
  import opened Links
  import opened Rtos

  function Head(head: map<nat, int>, m: nat): (t: int) {
    if m in head then head[m] else NULL
  }

  /** Where a task goes: behind everyone who ranks at least as high. */
  lemma {:induction false} InsertAt(q: seq<nat>, me: nat, prio: map<nat, nat>, k: nat)
    requires k <= |q| && (forall j :: 0 <= j < k ==> At(prio, q[j]) >= At(prio, me))
    requires k < |q| ==> At(prio, q[k]) < At(prio, me)
    ensures Insert(q, me, prio) == q[..k] + ([me] + q[k..])
  {
    if k > 0 {
      InsertAt(q[1..], me, prio, k - 1);
      assert q[..k] == [q[0]] + q[1..][..k - 1] && q[1..][k - 1..] == q[k..];
    }
  }

  ghost predicate MutexOk(b: Mutex, locked: bool, owner: Option<nat>, head: int, waitNext: map<nat, int>) {
    && b.owner == owner && (locked <==> owner.Some?)
    && Distinct(b.waiters) && (owner.None? ==> b.waiters == [])
    && List(waitNext, head, b.waiters)
  }

  /** Every mutex's fields and links agree with its queue. */
  ghost predicate Linked(mutex: map<nat, Mutex>, locked: set<nat>, owner: map<nat, Option<nat>>, head: map<nat, int>,
                         next: map<nat, int>) {
    forall m: nat {:trigger Box(mutex, m)} :: MutexOk(Box(mutex, m), m in locked, Note(owner, m), Head(head, m), next)
  }

  lemma Tells(mutex: map<nat, Mutex>, locked: set<nat>, owner: map<nat, Option<nat>>, head: map<nat, int>,
              next: map<nat, int>, m: nat)
    requires Linked(mutex, locked, owner, head, next)
    ensures MutexOk(Box(mutex, m), m in locked, Note(owner, m), Head(head, m), next)
  {
  }

  /** A task waits in one queue. */
  lemma OneQueue(w: World, m: nat, m': nat, t: nat)
    requires Noted(w.mutex, w.blockedOn) && t in Box(w.mutex, m).waiters && t in Box(w.mutex, m').waiters
    ensures m == m'
  {
    assert Note(w.blockedOn, t) == Some(m) && Note(w.blockedOn, t) == Some(m');
  }

  lemma EnqueueLinked(w: World, me: nat, m: nat, locked: set<nat>, owner: map<nat, Option<nat>>,
                      head: map<nat, int>, next: map<nat, int>, head': map<nat, int>, next': map<nat, int>)
    requires Noted(w.mutex, w.blockedOn) && Note(w.blockedOn, me).None? && Linked(w.mutex, locked, owner, head, next)
    requires m in locked
    requires List(next', Head(head', m), Insert(Box(w.mutex, m).waiters, me, w.prio))
    requires forall t: nat :: t != me && t !in Box(w.mutex, m).waiters ==> Follow(next', t) == Follow(next, t)
    requires forall m': nat :: m' != m ==> Head(head', m') == Head(head, m')
    ensures Linked(Queued(w, me, m).mutex, locked, owner, head', next')
  {
    QueuedBox(w, me, m);
    var q := Box(w.mutex, m).waiters;
    InsertMembers(q, me, w.prio);
    forall m': nat
      ensures MutexOk(Box(Queued(w, me, m).mutex, m'), m' in locked, Note(owner, m'), Head(head', m'), next')
    {
      var b := Box(w.mutex, m');
      assert MutexOk(b, m' in locked, Note(owner, m'), Head(head, m'), next);
      if m' == m {
        assert me in q ==> Note(w.blockedOn, me) == Some(m);
      } else {
        forall t | t in b.waiters ensures t != me && t !in q {
          assert Note(w.blockedOn, t) == Some(m');
          if t in q { OneQueue(w, m, m', t); }
        }
        PathFrame(next, next', b.waiters, NULL);
      }
    }
  }

  lemma ReleaseLinked(w: World, me: nat, m: nat, locked: set<nat>, owner: map<nat, Option<nat>>,
                      head: map<nat, int>, next: map<nat, int>)
    requires Linked(w.mutex, locked, owner, head, next) && Box(w.mutex, m).waiters == []
    ensures Linked(Rtos.Unlock(w, me, m).mutex, locked - {m}, owner[m := None], head, next)
  {
    var w' := Rtos.Unlock(w, me, m);
    forall m': nat
      ensures MutexOk(Box(w'.mutex, m'), m' in locked - {m}, Note(owner[m := None], m'), Head(head, m'), next)
    {
      assert MutexOk(Box(w.mutex, m'), m' in locked, Note(owner, m'), Head(head, m'), next);
      assert m' != m ==> Box(w'.mutex, m') == Box(w.mutex, m');
    }
  }

  lemma HandOverLinked(w: World, me: nat, m: nat, locked: set<nat>, owner: map<nat, Option<nat>>,
                       head: map<nat, int>, next: map<nat, int>, first: nat)
    requires Noted(w.mutex, w.blockedOn) && Linked(w.mutex, locked, owner, head, next)
    requires m in locked && Box(w.mutex, m).waiters != [] && first == Box(w.mutex, m).waiters[0]
    ensures Linked(Rtos.Unlock(w, me, m).mutex, locked, owner[m := Some(first)],
                   head[m := Follow(next, first)], next[first := NULL])
  {
    var w', q, next' := Rtos.Unlock(w, me, m), Box(w.mutex, m).waiters, next[first := NULL];
    assert MutexOk(Box(w.mutex, m), m in locked, Note(owner, m), Head(head, m), next);
    assert Follow(next, q[0]) == After(q, 0, NULL);
    PathSuffix(next, q, 1);
    LastApart(q, 1);
    PathFrame(next, next', q[1..], NULL);
    forall m': nat | m' != m
      ensures MutexOk(Box(w'.mutex, m'), m' in locked, Note(owner, m'), Head(head, m'), next')
    {
      var b := Box(w.mutex, m');
      assert MutexOk(b, m' in locked, Note(owner, m'), Head(head, m'), next) && Box(w'.mutex, m') == b;
      if first in b.waiters { OneQueue(w, m, m', first); }
      PathFrame(next, next', b.waiters, NULL);
    }
    assert Box(w'.mutex, m) == Mutex(Some(first), q[1..]);
  }

  class Kernel {
    var prio: map<nat, nat>
    var base: map<nat, nat>
    var blockedOn: map<nat, Option<nat>>
    var waitNext: map<nat, int>
    var locked: set<nat>
    var owner: map<nat, Option<nat>>
    var head: map<nat, int>
    ghost var holding: map<nat, Option<nat>>
    ghost var ticket: map<nat, nat>
    ghost var mutex: map<nat, Mutex>
    ghost var clock: nat

    ghost function View(): (w: World)
      reads this
    {
      World(prio, base, blockedOn, holding, ticket, mutex, clock)
    }

    ghost predicate Valid()
      reads this
    {
      Noted(mutex, blockedOn) && Linked(mutex, locked, owner, head, waitNext)
    }

    constructor (priorities: map<nat, nat>)
      ensures Valid() && View() == World(priorities, priorities, map[], map[], map[], map[], 0)
    {
      prio, base := priorities, priorities;
      blockedOn, waitNext, locked, owner, head := map[], map[], {}, map[], map[];
      holding, ticket, mutex, clock := map[], map[], map[], 0;
    }

    /** wq_insert on the queue q of mutex m: rewrites two links at most. */
    method WqInsert(m: nat, me: nat, ghost q: seq<nat>)
      requires List(waitNext, Head(head, m), q) && Distinct(q) && me !in q
      modifies this`waitNext, this`head
      ensures List(waitNext, Head(head, m), Insert(q, me, prio))
      ensures forall t: nat :: t != me && t !in q ==> Follow(waitNext, t) == Follow(old(waitNext), t)
      ensures forall m': nat :: m' != m ==> Head(head, m') == Head(old(head), m')
    {
      waitNext := waitNext[me := NULL];
      PathFrame(old(waitNext), waitNext, q, NULL);
      var first := Head(head, m);
      if first == NULL || At(prio, me) > At(prio, first) {
        ListPush(waitNext, first, q, me);
        waitNext := waitNext[me := first];
        head := head[m := me];
        return;
      }
      var p: nat := first;
      ghost var i := 0;
      while true
        invariant 0 <= i < |q| && p == q[i] && forall j :: 0 <= j <= i ==> At(prio, q[j]) >= At(prio, me)
        decreases |q| - i
      {
        var n := Follow(waitNext, p);
        assert Follow(waitNext, q[i]) == After(q, i, NULL);
        if n == NULL || At(prio, n) < At(prio, me) {
          break;
        }
        p, i := n, i + 1;
      }
      assert Follow(waitNext, q[i]) == After(q, i, NULL);
      InsertAt(q, me, prio, i + 1);
      PathInsert(waitNext, q, i + 1, me);
      waitNext := waitNext[me := Follow(waitNext, p)];
      waitNext := waitNext[p := me];
    }

    /** pi_propagate. */
    method PiPropagate(start: Option<nat>, p: nat)
      requires forall m: nat :: Box(mutex, m).owner == Note(owner, m)
      modifies this`prio
      ensures prio == Propagate(old(View()), old(prio), start, p, MAX_DEPTH)
    {
      var o, depth := start, 0;
      ghost var w := View();
      while o.Some? && depth < MAX_DEPTH
        invariant depth <= MAX_DEPTH
        invariant Propagate(w, prio, o, p, MAX_DEPTH - depth) == Propagate(w, old(prio), start, p, MAX_DEPTH)
        decreases MAX_DEPTH - depth
      {
        depth := depth + 1;
        if p <= At(prio, o.value) {
          return;
        }
        prio := prio[o.value := p];
        var note := Note(blockedOn, o.value);
        if note.None? {
          return;
        }
        o := Note(owner, note.value);
      }
    }

    /** rt_mutex_lock: `blocks` when the caller must wait to be handed the mutex. */
    method Lock(me: nat, m: nat) returns (blocks: bool)
      requires Valid() && Note(blockedOn, me).None?
      modifies this
      ensures Valid() && View() == Rtos.Lock(old(View()), me, m)
      ensures blocks <==> old(Box(mutex, m).owner.Some?)
    {
      assert MutexOk(Box(mutex, m), m in locked, Note(owner, m), Head(head, m), waitNext);
      if m !in locked {
        TakeFree(me, m);
        return false;
      }
      Enqueue(me, m);
      PiPropagate(Note(owner, m), At(prio, me));
      blocks := true;
    }

    method TakeFree(me: nat, m: nat)
      requires Valid() && m !in locked && Box(mutex, m).owner.None?
      modifies this`locked, this`owner, this`holding, this`mutex
      ensures Valid() && View() == Rtos.Lock(old(View()), me, m)
    {
      LockNoted(View(), me, m);
      ghost var was := mutex;
      locked := locked + {m};
      owner := owner[m := Some(me)];
      holding := holding[me := Some(m)];
      mutex := mutex[m := Box(mutex, m).(owner := Some(me))];
      forall m': nat ensures MutexOk(Box(mutex, m'), m' in locked, Note(owner, m'), Head(head, m'), waitNext) {
        assert MutexOk(Box(was, m'), m' in old(locked), Note(old(owner), m'), Head(head, m'), waitNext);
      }
    }

    method Enqueue(me: nat, m: nat)
      requires Valid() && Note(blockedOn, me).None? && m in locked
      modifies this`blockedOn, this`waitNext, this`head, this`ticket, this`clock, this`mutex
      ensures Valid() && View() == Queued(old(View()), me, m)
    {
      ghost var w := View();
      Tells(w.mutex, locked, owner, head, waitNext, m);
      assert me in Box(mutex, m).waiters ==> Note(blockedOn, me) == Some(m);
      QueuedNoted(w, me, m);
      JoinQueue(me, m);
      EnqueueLinked(w, me, m, locked, owner, old(head), old(waitNext), head, waitNext);
    }

    method JoinQueue(me: nat, m: nat)
      requires var q := Box(mutex, m).waiters; List(waitNext, Head(head, m), q) && Distinct(q) && me !in q
      modifies this`blockedOn, this`waitNext, this`head, this`ticket, this`clock, this`mutex
      ensures View() == Queued(old(View()), me, m)
      ensures List(waitNext, Head(head, m), Insert(old(Box(mutex, m).waiters), me, prio))
      ensures forall t: nat :: t != me && t !in old(Box(mutex, m).waiters) ==>
        Follow(waitNext, t) == Follow(old(waitNext), t)
      ensures forall m': nat :: m' != m ==> Head(head, m') == Head(old(head), m')
    {
      ghost var w := View();
      blockedOn := blockedOn[me := Some(m)];
      WqInsert(m, me, Box(mutex, m).waiters);
      ticket, clock, mutex := ticket[me := clock], clock + 1, Queued(w, me, m).mutex;
    }

    /** The rest of rt_mutex_lock, when the caller runs again as the owner. */
    method Resume(me: nat)
      requires Valid() && Note(blockedOn, me).Some? && me !in Box(mutex, Note(blockedOn, me).value).waiters
      modifies this`blockedOn, this`holding
      ensures Valid() && View() == Rtos.Resume(old(View()), me)
    {
      holding := holding[me := Note(blockedOn, me)];
      blockedOn := blockedOn[me := None];
      assert forall t: nat :: t != me ==> Note(blockedOn, t) == Note(old(blockedOn), t);
    }

    /** rt_mutex_unlock by the owner: hands the mutex to the head of the queue. */
    method Unlock(me: nat, m: nat)
      requires Valid() && Note(owner, m) == Some(me) && Note(blockedOn, me).None?
      modifies this
      ensures Valid() && View() == Rtos.Unlock(old(View()), me, m)
    {
      ghost var w := View();
      Tells(w.mutex, locked, owner, head, waitNext, m);
      UnlockedNoted(w, me, m);
      var first := Head(head, m);
      if first == NULL {
        ReleaseLinked(w, me, m, locked, owner, head, waitNext);
      } else {
        HandOverLinked(w, me, m, locked, owner, head, waitNext, first);
      }
      Grant(me, m, first);
    }

    method Grant(me: nat, m: nat, first: int)
      requires first == NULL || first >= 0
      modifies this
      ensures View() == Rtos.Unlock(old(View()), me, m)
      ensures first == NULL ==>
        (locked, owner, head, waitNext) == (old(locked) - {m}, old(owner)[m := None], old(head), old(waitNext))
      ensures first != NULL ==> (locked, owner) == (old(locked), old(owner)[m := Some(first)])
      ensures first != NULL ==>
        (head, waitNext) == (old(head)[m := Follow(old(waitNext), first)], old(waitNext)[first := NULL])
    {
      ghost var w := View();
      prio := prio[me := At(base, me)];
      holding := holding[me := None];
      mutex := Rtos.Unlock(w, me, m).mutex;
      if first == NULL {
        locked := locked - {m};
        owner := owner[m := None];
      } else {
        head := head[m := Follow(waitNext, first)];
        waitNext := waitNext[first := NULL];
        owner := owner[m := Some(first)];
      }
    }
  }

  lemma LockNoted(w: World, me: nat, m: nat)
    requires Noted(w.mutex, w.blockedOn) && Box(w.mutex, m).owner.None?
    ensures Noted(Rtos.Lock(w, me, m).mutex, w.blockedOn)
  {
    var w' := Rtos.Lock(w, me, m);
    assert forall m': nat :: Box(w'.mutex, m').waiters == Box(w.mutex, m').waiters;
  }

  lemma UnlockedNoted(w: World, me: nat, m: nat)
    requires Noted(w.mutex, w.blockedOn) && Box(w.mutex, m).owner == Some(me) && Note(w.blockedOn, me).None?
    ensures Noted(Rtos.Unlock(w, me, m).mutex, w.blockedOn)
  {
    var w', q := Rtos.Unlock(w, me, m), Box(w.mutex, m).waiters;
    assert forall m': nat :: m' != m ==> Box(w'.mutex, m') == Box(w.mutex, m');
    if q != [] { TailMembers(q); }
    forall t: nat | Note(w.blockedOn, t).Some?
      ensures var b := Box(w'.mutex, Note(w.blockedOn, t).value); t in b.waiters || b.owner == Some(t)
    {
      assert t != me;
    }
  }
}
