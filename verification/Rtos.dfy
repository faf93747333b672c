/**
 Mutexes with priority inheritance. A locked mutex has an owner and a wait queue
 kept highest priority first; a task that blocks raises the owner, and along a
 chain of blocked owners, up to eight of them, the owners behind.
 */
module Rtos {
  import opened Arith
  import opened Common

  datatype Mutex = Mutex(owner: Option<nat>, waiters: seq<nat>)

  /**
   `blockedOn` is the kernel's note of what a task waits for; it stays set after the
   mutex has been handed over, until the task runs again. `holding` is the task's own
   view: what it has locked and not yet unlocked. `ticket` is when it last queued up.
   A task or mutex that a map does not name has the zero value of that field.
   */
  datatype World = World(
    prio: map<nat, nat>, base: map<nat, nat>,
    blockedOn: map<nat, Option<nat>>, holding: map<nat, Option<nat>>, ticket: map<nat, nat>,
    mutex: map<nat, Mutex>, clock: nat)

  function At(f: map<nat, nat>, t: nat): (n: nat) {
    if t in f then f[t] else 0
  }

  function Note(f: map<nat, Option<nat>>, t: nat): (m: Option<nat>) {
    if t in f then f[t] else None
  }

  function Box(mutex: map<nat, Mutex>, m: nat): (b: Mutex) {
    if m in mutex then mutex[m] else Mutex(None, [])
  }

  // ---------------------------------------------------------------------
  // Operations
  // ---------------------------------------------------------------------

  /** wq_insert: in front of the first task of strictly lower priority. */
  function Insert(q: seq<nat>, me: nat, prio: map<nat, nat>): (r: seq<nat>) {
    if q == [] || At(prio, me) > At(prio, q[0]) then [me] + q else [q[0]] + Insert(q[1..], me, prio)
  }

  /** Who owns the mutex t waits for, if it waits. */
  function Behind(w: World, t: nat): (o: Option<nat>) {
    var note := Note(w.blockedOn, t);
    if note.None? then None else Box(w.mutex, note.value).owner
  }

  const MAX_DEPTH: nat := 8

  /** pi_propagate: raise `owner` to p and go on behind it, at most `fuel` owners in all. */
  function Propagate(w: World, prio: map<nat, nat>, owner: Option<nat>, p: nat, fuel: nat): (prio': map<nat, nat>)
    decreases fuel
  {
    if owner.None? || fuel == 0 || p <= At(prio, owner.value) then prio
    else Propagate(w, prio[owner.value := p], Behind(w, owner.value), p, fuel - 1)
  }

  /** A contended rt_mutex_lock: the caller notes the mutex and joins its queue. */
  function Queued(w: World, me: nat, m: nat): (w': World) {
    var b := Box(w.mutex, m);
    w.(
      blockedOn := w.blockedOn[me := Some(m)],
      ticket := w.ticket[me := w.clock], clock := w.clock + 1,
      mutex := w.mutex[m := b.(waiters := Insert(b.waiters, me, w.prio))])
  }

  /** A contended rt_mutex_lock up to the point where the caller blocks. */
  function Contend(w: World, me: nat, m: nat): (w': World) {
    var q := Queued(w, me, m);
    q.(prio := Propagate(q, w.prio, Box(w.mutex, m).owner, At(w.prio, me), MAX_DEPTH))
  }

  function Lock(w: World, me: nat, m: nat): (w': World) {
    var b := Box(w.mutex, m);
    if b.owner.None? then
      w.(mutex := w.mutex[m := b.(owner := Some(me))], holding := w.holding[me := Some(m)])
    else Contend(w, me, m)
  }

  /** The end of a contended rt_mutex_lock, once the caller has been handed the mutex and runs again. */
  function Resume(w: World, me: nat): (w': World) {
    w.(blockedOn := w.blockedOn[me := None], holding := w.holding[me := Note(w.blockedOn, me)])
  }

  function Unlock(w: World, me: nat, m: nat): (w': World) {
    var q := Box(w.mutex, m).waiters;
    var w1 := w.(prio := w.prio[me := At(w.base, me)], holding := w.holding[me := None]);
    if q == [] then w1.(mutex := w.mutex[m := Mutex(None, [])])
    else w1.(mutex := w.mutex[m := Mutex(Some(q[0]), q[1..])])
  }

  /** Queueing adds the task and moves nobody else. */
  lemma {:induction false} InsertMembers(q: seq<nat>, me: nat, prio: map<nat, nat>)
    ensures forall t :: t in Insert(q, me, prio) <==> t == me || t in q
    ensures Distinct(q) && me !in q ==> Distinct(Insert(q, me, prio))
  {
    if q == [] || At(prio, me) > At(prio, q[0]) {
      if Distinct(q) && me !in q { DistinctConcat([me], q); }
    } else {
      InsertMembers(q[1..], me, prio);
      TailMembers(q);
      if Distinct(q) && me !in q { DistinctConcat([q[0]], Insert(q[1..], me, prio)); }
    }
  }

  // ---------------------------------------------------------------------
  // Priority inheritance along any blocking chain, nested holders included
  // ---------------------------------------------------------------------

  /** t waits for m and m is owned by o. */
  ghost predicate Waits(mutex: map<nat, Mutex>, m: nat, t: nat, o: nat) {
    t in Box(mutex, m).waiters && Box(mutex, m).owner == Some(o)
  }

  /** Every owner ranks at least as high as every task waiting for it. */
  ghost predicate Inherited(mutex: map<nat, Mutex>, prio: map<nat, nat>) {
    forall m: nat, t: nat, o: nat :: Waits(mutex, m, t, o) ==> At(prio, t) <= At(prio, o)
  }

  /** `blockedOn` names the mutex a task waits for, or one it has been handed since. */
  ghost predicate Noted(mutex: map<nat, Mutex>, blockedOn: map<nat, Option<nat>>) {
    && (forall m: nat, t: nat :: t in Box(mutex, m).waiters ==> Note(blockedOn, t) == Some(m))
    && (forall t: nat :: Note(blockedOn, t).Some? ==>
        var b := Box(mutex, Note(blockedOn, t).value); t in b.waiters || b.owner == Some(t))
  }

  ghost predicate OwnersKnown(mutex: map<nat, Mutex>, prio: map<nat, nat>) {
    forall m: nat :: Box(mutex, m).owner.Some? ==> Box(mutex, m).owner.value in prio
  }

  /** How many owners rank below p on the chain from `owner`. */
  ghost function ChainLength(w: World, prio: map<nat, nat>, owner: Option<nat>, p: nat): (n: nat)
    requires OwnersKnown(w.mutex, prio) && (owner.Some? ==> owner.value in prio)
    decreases |Under(prio, p)|
  {
    if owner.None? || p <= At(prio, owner.value) then 0
    else
      FewerBelow(prio, owner.value, p);
      1 + ChainLength(w, prio[owner.value := p], Behind(w, owner.value), p)
  }

  ghost function Under(prio: map<nat, nat>, p: nat): (s: set<nat>) {
    set t | t in prio && prio[t] < p
  }

  lemma FewerBelow(prio: map<nat, nat>, o: nat, p: nat)
    requires o in prio && prio[o] < p
    ensures |Under(prio[o := p], p)| < |Under(prio, p)|
  {
    assert o in Under(prio, p) && Under(prio[o := p], p) == Under(prio, p) - {o};
  }

  /** Inheritance holds except that tasks up to rank p may wait for `owner`. */
  ghost predicate Owing(mutex: map<nat, Mutex>, prio: map<nat, nat>, owner: Option<nat>, p: nat) {
    forall m: nat, t: nat, o: nat :: Waits(mutex, m, t, o) ==>
      At(prio, t) <= At(prio, o) || (owner == Some(o) && At(prio, t) <= p)
  }

  /** Some task of rank p waits for o. */
  ghost predicate Pushed(mutex: map<nat, Mutex>, prio: map<nat, nat>, o: nat, p: nat) {
    exists m: nat, t: nat :: Waits(mutex, m, t, o) && At(prio, t) == p
  }

  /**
   Propagation restores inheritance exactly when the chain it has to raise is no
   longer than its bound. Stopping early at an owner that ranks high enough is
   sound, and an owner whose note is stale ends the chain.
   */
  lemma {:induction false} PropagateIff(w: World, prio: map<nat, nat>, owner: Option<nat>, p: nat, fuel: nat)
    requires Noted(w.mutex, w.blockedOn) && OwnersKnown(w.mutex, prio) && (owner.Some? ==> owner.value in prio)
    requires Owing(w.mutex, prio, owner, p)
    requires owner.Some? && p > At(prio, owner.value) ==> Pushed(w.mutex, prio, owner.value, p)
    ensures Inherited(w.mutex, Propagate(w, prio, owner, p, fuel)) <==> ChainLength(w, prio, owner, p) <= fuel
    decreases fuel
  {
    if owner.None? || p <= At(prio, owner.value) {
      assert Propagate(w, prio, owner, p, fuel) == prio;
      OwingPaid(w.mutex, prio, owner, p);
    } else if fuel == 0 {
      PushedBreaks(w.mutex, prio, owner.value, p);
    } else {
      var o, prio' := owner.value, prio[owner.value := p];
      RaiseOne(w, prio, o, p);
      PropagateIff(w, prio', Behind(w, o), p, fuel - 1);
    }
  }

  lemma OwingPaid(mutex: map<nat, Mutex>, prio: map<nat, nat>, owner: Option<nat>, p: nat)
    requires Owing(mutex, prio, owner, p) && (owner.Some? ==> p <= At(prio, owner.value))
    ensures Inherited(mutex, prio)
  {
  }

  lemma PushedBreaks(mutex: map<nat, Mutex>, prio: map<nat, nat>, o: nat, p: nat)
    requires Pushed(mutex, prio, o, p) && p > At(prio, o)
    ensures !Inherited(mutex, prio)
  {
  }

  /** Raising one owner moves the debt to the owner behind it. */
  lemma RaiseOne(w: World, prio: map<nat, nat>, o: nat, p: nat)
    requires Noted(w.mutex, w.blockedOn) && OwnersKnown(w.mutex, prio) && p > At(prio, o)
    requires Owing(w.mutex, prio, Some(o), p)
    ensures OwnersKnown(w.mutex, prio[o := p]) && (Behind(w, o).Some? ==> Behind(w, o).value in prio)
    ensures Owing(w.mutex, prio[o := p], Behind(w, o), p)
    ensures Behind(w, o).Some? && p > At(prio[o := p], Behind(w, o).value) ==>
      Pushed(w.mutex, prio[o := p], Behind(w, o).value, p)
  {
    var prio', b := prio[o := p], Behind(w, o);
    if b.Some? && p > At(prio', b.value) {
      assert Waits(w.mutex, Note(w.blockedOn, o).value, o, b.value) && At(prio', o) == p;
    }
  }

  /**
   Blocking on an owned mutex leaves every owner at least as high as its waiters
   exactly when at most eight owners on the blocking chain had to be raised.
   */
  lemma ContendIff(w: World, me: nat, m: nat)
    requires Noted(w.mutex, w.blockedOn) && Inherited(w.mutex, w.prio) && OwnersKnown(w.mutex, w.prio)
    requires Note(w.blockedOn, me).None? && Box(w.mutex, m).owner.Some?
    ensures OwnersKnown(Queued(w, me, m).mutex, w.prio)
    ensures Inherited(Contend(w, me, m).mutex, Contend(w, me, m).prio) <==>
      ChainLength(Queued(w, me, m), w.prio, Box(w.mutex, m).owner, At(w.prio, me)) <= 8
  {
    var q, owner, p := Queued(w, me, m), Box(w.mutex, m).owner, At(w.prio, me);
    QueuedBox(w, me, m);
    QueuedNoted(w, me, m);
    QueuedOwing(w, me, m);
    assert Waits(q.mutex, m, me, owner.value);
    PropagateIff(q, w.prio, owner, p, MAX_DEPTH);
  }

  lemma QueuedBox(w: World, me: nat, m: nat)
    ensures forall m': nat {:trigger Box(Queued(w, me, m).mutex, m')} ::
      Box(Queued(w, me, m).mutex, m') ==
        if m' == m then Mutex(Box(w.mutex, m).owner, Insert(Box(w.mutex, m).waiters, me, w.prio)) else Box(w.mutex, m')
  {
  }

  lemma QueuedNoted(w: World, me: nat, m: nat)
    requires Noted(w.mutex, w.blockedOn) && Note(w.blockedOn, me).None?
    ensures Noted(Queued(w, me, m).mutex, Queued(w, me, m).blockedOn)
    ensures me in Box(Queued(w, me, m).mutex, m).waiters
  {
    InsertMembers(Box(w.mutex, m).waiters, me, w.prio);
    QueuedBox(w, me, m);
    var q := Queued(w, me, m);
    forall m': nat, t: nat | t in Box(q.mutex, m').waiters ensures Note(q.blockedOn, t) == Some(m') {
      if t != me || m' != m {
        assert t in Box(w.mutex, m').waiters && Note(w.blockedOn, t) == Some(m');
        assert t != me && Note(q.blockedOn, t) == Note(w.blockedOn, t);
      }
    }
    forall t: nat | Note(q.blockedOn, t).Some?
      ensures var b := Box(q.mutex, Note(q.blockedOn, t).value); t in b.waiters || b.owner == Some(t)
    {
      if t != me { assert Note(w.blockedOn, t) == Note(q.blockedOn, t); }
    }
  }

  lemma QueuedOwing(w: World, me: nat, m: nat)
    requires Inherited(w.mutex, w.prio)
    ensures Owing(Queued(w, me, m).mutex, w.prio, Box(w.mutex, m).owner, At(w.prio, me))
  {
    InsertMembers(Box(w.mutex, m).waiters, me, w.prio);
    forall m': nat, t: nat, o: nat | Waits(Queued(w, me, m).mutex, m', t, o)
      ensures At(w.prio, t) <= At(w.prio, o) || (Box(w.mutex, m).owner == Some(o) && At(w.prio, t) <= At(w.prio, me))
    {
      assert (m' == m && t == me) || Waits(w.mutex, m', t, o);
    }
  }

  /**
   Unlocking drops the caller to its base priority and hands the mutex to the head
   of the queue. Inheritance survives exactly when no other mutex the caller still
   owns has a waiter above that base, and no waiter left behind outranks the head.
   */
  lemma UnlockIff(w: World, me: nat, m: nat)
    requires Noted(w.mutex, w.blockedOn) && Inherited(w.mutex, w.prio)
    requires Box(w.mutex, m).owner == Some(me) && Note(w.blockedOn, me).None?
    ensures Inherited(Unlock(w, me, m).mutex, Unlock(w, me, m).prio) <==>
      && (forall m': nat, t: nat :: m' != m && Waits(w.mutex, m', t, me) ==> At(w.prio, t) <= At(w.base, me))
      && HeadIsTop(Box(w.mutex, m).waiters, w.prio)
  {
    if Inherited(Unlock(w, me, m).mutex, Unlock(w, me, m).prio) { UnlockNeeds(w, me, m); }
    if (forall m': nat, t: nat :: m' != m && Waits(w.mutex, m', t, me) ==> At(w.prio, t) <= At(w.base, me))
      && HeadIsTop(Box(w.mutex, m).waiters, w.prio)
    {
      UnlockSuffices(w, me, m);
    }
  }

  lemma UnlockNeeds(w: World, me: nat, m: nat)
    requires Noted(w.mutex, w.blockedOn) && Note(w.blockedOn, me).None?
    requires Inherited(Unlock(w, me, m).mutex, Unlock(w, me, m).prio)
    ensures forall m': nat, t: nat :: m' != m && Waits(w.mutex, m', t, me) ==> At(w.prio, t) <= At(w.base, me)
    ensures HeadIsTop(Box(w.mutex, m).waiters, w.prio)
  {
    var w', q := Unlock(w, me, m), Box(w.mutex, m).waiters;
    UnlockPairs(w, me, m);
    forall m': nat, t: nat | m' != m && Waits(w.mutex, m', t, me) ensures At(w.prio, t) <= At(w.base, me) {
      assert Waits(w'.mutex, m', t, me);
    }
    forall i | 1 <= i < |q| ensures At(w.prio, q[i]) <= At(w.prio, q[0]) {
      assert q[1..][i - 1] == q[i] && q[0] in q;
      assert Waits(w'.mutex, m, q[i], q[0]);
    }
  }

  lemma UnlockSuffices(w: World, me: nat, m: nat)
    requires Noted(w.mutex, w.blockedOn) && Inherited(w.mutex, w.prio) && Note(w.blockedOn, me).None?
    requires forall m': nat, t: nat :: m' != m && Waits(w.mutex, m', t, me) ==> At(w.prio, t) <= At(w.base, me)
    requires HeadIsTop(Box(w.mutex, m).waiters, w.prio)
    ensures Inherited(Unlock(w, me, m).mutex, Unlock(w, me, m).prio)
  {
    var w', q := Unlock(w, me, m), Box(w.mutex, m).waiters;
    UnlockPairs(w, me, m);
    forall m': nat, t: nat, o: nat | Waits(w'.mutex, m', t, o) ensures At(w'.prio, t) <= At(w'.prio, o) {
      if m' == m {
        TailMembers(q);
        var i :| 0 <= i < |q| - 1 && q[1..][i] == t;
        assert q[i + 1] == t && q[0] in q;
      }
    }
  }

  ghost predicate HeadIsTop(q: seq<nat>, prio: map<nat, nat>) {
    forall i :: 1 <= i < |q| ==> At(prio, q[i]) <= At(prio, q[0])
  }

  /** Who waits for whom after an unlock. */
  lemma UnlockPairs(w: World, me: nat, m: nat)
    requires Noted(w.mutex, w.blockedOn) && Note(w.blockedOn, me).None?
    ensures forall m': nat, t: nat, o: nat :: Waits(Unlock(w, me, m).mutex, m', t, o) <==>
      if m' != m then Waits(w.mutex, m', t, o)
      else var q := Box(w.mutex, m).waiters; |q| > 0 && t in q[1..] && o == q[0]
    ensures forall m': nat :: me !in Box(w.mutex, m').waiters
  {
  }

  // ---------------------------------------------------------------------
  // Where inheritance is lost
  // ---------------------------------------------------------------------

  /** n owners of rank 1 in a row, each waiting for the next one's mutex, and a task n of rank 2. */
  ghost function Tower(n: nat): (w: World) {
    var all := Below(n + 1);
    var prio := map t | t in all :: t := if t < n then 1 else 2;
    World(prio, prio, map t | t in Below(n) && t + 1 < n :: t := Some(t + 1), map[], map[],
      map m | m in Below(n) :: m := Mutex(Some(m), if m == 0 then [] else [m - 1]), 0)
  }

  ghost predicate Stacked(w: World, n: nat) {
    && (forall t: nat :: At(w.prio, t) == if t < n then 1 else if t == n then 2 else 0)
    && (forall t: nat :: Note(w.blockedOn, t) == if t + 1 < n then Some(t + 1) else None)
    && (forall m: nat ::
          Box(w.mutex, m) == if m < n then Mutex(Some(m), if m == 0 then [] else [m - 1]) else Mutex(None, []))
  }

  lemma TowerStacked(n: nat)
    ensures Stacked(Tower(n), n)
  {
  }

  /** All is well until the last task locks the first mutex: then the bound of eight is what decides. */
  lemma TowerIff(n: nat)
    requires n > 0
    ensures var w := Tower(n);
      && Noted(w.mutex, w.blockedOn) && Inherited(w.mutex, w.prio) && Note(w.blockedOn, n).None?
      && (Inherited(Contend(w, n, 0).mutex, Contend(w, n, 0).prio) <==> n <= 8)
  {
    TowerStacked(n);
    StackedIff(Tower(n), n);
  }

  lemma StackedIff(w: World, n: nat)
    requires Stacked(w, n) && n > 0
    ensures Noted(w.mutex, w.blockedOn) && Inherited(w.mutex, w.prio) && Note(w.blockedOn, n).None?
    ensures Inherited(Contend(w, n, 0).mutex, Contend(w, n, 0).prio) <==> n <= 8
  {
    StackedNoted(w, n);
    ContendIff(w, n, 0);
    StackedBehind(w, n);
    forall t: nat | t < n ensures t in w.prio && At(w.prio, t) == 1 { assert At(w.prio, t) == 1; }
    TowerChain(n, Queued(w, n, 0), w.prio, 0);
  }

  lemma StackedNoted(w: World, n: nat)
    requires Stacked(w, n)
    ensures Noted(w.mutex, w.blockedOn) && Inherited(w.mutex, w.prio) && OwnersKnown(w.mutex, w.prio)
  {
    forall t: nat | Note(w.blockedOn, t).Some? ensures t in Box(w.mutex, Note(w.blockedOn, t).value).waiters {
      assert Box(w.mutex, t + 1) == Mutex(Some(t + 1), [t]);
    }
    forall m: nat | Box(w.mutex, m).owner.Some?
      ensures Box(w.mutex, m).owner.value in w.prio
    {
      assert At(w.prio, m) == 1;
    }
  }

  lemma StackedBehind(w: World, n: nat)
    requires Stacked(w, n) && n > 0
    ensures forall t: nat :: t < n ==> Behind(Queued(w, n, 0), t) == if t + 1 < n then Some(t + 1) else None
  {
    var q := Queued(w, n, 0);
    forall t: nat | t < n ensures Behind(q, t) == if t + 1 < n then Some(t + 1) else None {
      assert Note(q.blockedOn, t) == Note(w.blockedOn, t) && Box(q.mutex, t + 1) == Box(w.mutex, t + 1);
    }
  }

  lemma {:induction false} TowerChain(n: nat, w: World, prio: map<nat, nat>, i: nat)
    requires i < n && OwnersKnown(w.mutex, prio)
    requires forall t: nat :: i <= t < n ==> t in prio && At(prio, t) == 1
    requires forall t: nat :: t < n ==> Behind(w, t) == if t + 1 < n then Some(t + 1) else None
    ensures ChainLength(w, prio, Some(i), 2) == n - i
    decreases n - i
  {
    var raised := prio[i := 2];
    assert Behind(w, i) == if i + 1 < n then Some(i + 1) else None;
    if i + 1 < n {
      forall t: nat | i + 1 <= t < n ensures t in raised && At(raised, t) == 1 { assert At(prio, t) == 1; }
      TowerChain(n, w, raised, i + 1);
    }
  }

  /** Unlocking one of two mutexes drops a task below one that waits for the other. */
  lemma NestedUnlockDrops(w: World)
    requires w.mutex == map[0 := Mutex(Some(0), []), 1 := Mutex(Some(0), [1])] && w.blockedOn == map[1 := Some(1)]
    requires w.base == map[0 := 1, 1 := 2] && w.prio == map[0 := 2, 1 := 2]
    ensures Noted(w.mutex, w.blockedOn) && Inherited(w.mutex, w.prio)
    ensures !Inherited(Unlock(w, 0, 0).mutex, Unlock(w, 0, 0).prio)
  {
    assert Waits(Unlock(w, 0, 0).mutex, 1, 1, 0);
  }

  /** A world nothing has happened in. */
  function Fresh(base: map<nat, nat>): (w: World) {
    World(base, base, map[], map[], map[], map[], 0)
  }

  /** That state is reached: the task locks both, the other blocks on the second and lends its rank. */
  lemma NestedUnlockHappens()
    ensures var w := Lock(Lock(Lock(Fresh(map[0 := 1, 1 := 2]), 0, 0), 0, 1), 1, 1);
      Inherited(w.mutex, w.prio) && !Inherited(Unlock(w, 0, 0).mutex, Unlock(w, 0, 0).prio)
  {
    var w0 := Fresh(map[0 := 1, 1 := 2]);
    var w2 := Lock(Lock(w0, 0, 0), 0, 1);
    assert w2.mutex == map[0 := Mutex(Some(0), []), 1 := Mutex(Some(0), [])] && w2.blockedOn == map[];
    var w := Lock(w2, 1, 1);
    assert Insert([], 1, w2.prio) == [1];
    assert w.mutex == map[0 := Mutex(Some(0), []), 1 := Mutex(Some(0), [1])] && w.blockedOn == map[1 := Some(1)];
    RaisesOne(Queued(w2, 1, 1), w2.prio, 0, 2);
    assert w.prio == map[0 := 2, 1 := 2];
    NestedUnlockDrops(w);
  }

  lemma RaisesOne(w: World, prio: map<nat, nat>, o: nat, p: nat)
    requires At(prio, o) < p && Behind(w, o).None?
    ensures Propagate(w, prio, Some(o), p, MAX_DEPTH) == prio[o := p]
  {
    assert Propagate(w, prio[o := p], Behind(w, o), p, MAX_DEPTH - 1) == prio[o := p];
  }

  // ---------------------------------------------------------------------
  // A tower, built lock by lock
  // ---------------------------------------------------------------------

  ghost function Ranks(n: nat): (base: map<nat, nat>) {
    var all := Below(n + 1);
    map t | t in all :: t := if t < n then 1 else 2
  }

  /** Tasks 0 to k - 1 each take the mutex of their number. */
  function TakeOwn(w: World, k: nat): (w': World) {
    if k == 0 then w else Lock(TakeOwn(w, k - 1), k - 1, k - 1)
  }

  /** Tasks 0 to k - 1 each lock the mutex of the next task. */
  function BlockOnNext(w: World, k: nat): (w': World) {
    if k == 0 then w else Lock(BlockOnNext(w, k - 1), k - 1, k)
  }

  /** n tasks own a mutex each, and the first k of them wait for the next one's. */
  ghost predicate HalfStacked(w: World, n: nat, k: nat) {
    && (forall t: nat :: At(w.prio, t) == if t < n then 1 else if t == n then 2 else 0)
    && (forall t: nat :: Note(w.blockedOn, t) == if t < k then Some(t + 1) else None)
    && (forall m: nat ::
          Box(w.mutex, m) == if m < n then Mutex(Some(m), if 0 < m <= k then [m - 1] else []) else Mutex(None, []))
  }

  lemma {:induction false} OwnTaken(w: World, n: nat, k: nat)
    requires w == Fresh(Ranks(n)) && k <= n
    ensures var w' := TakeOwn(w, k);
      && w'.prio == w.prio && w'.blockedOn == map[]
      && forall m: nat :: Box(w'.mutex, m) == if m < k then Mutex(Some(m), []) else Mutex(None, [])
    decreases k
  {
    if k > 0 {
      OwnTaken(w, n, k - 1);
      var w1, w' := TakeOwn(w, k - 1), TakeOwn(w, k);
      assert Box(w1.mutex, k - 1) == Mutex(None, []);
      forall m: nat ensures Box(w'.mutex, m) == if m < k then Mutex(Some(m), []) else Mutex(None, []) {
        assert m != k - 1 ==> Box(w'.mutex, m) == Box(w1.mutex, m);
      }
    }
  }

  lemma {:induction false} NextBlocked(w: World, n: nat, k: nat)
    requires HalfStacked(w, n, 0) && k < n
    ensures HalfStacked(BlockOnNext(w, k), n, k)
    decreases k
  {
    if k > 0 {
      NextBlocked(w, n, k - 1);
      BlockStep(BlockOnNext(w, k - 1), n, k - 1);
    }
  }

  /** One more task blocks; its owner ranks as high already. */
  lemma BlockStep(w: World, n: nat, k: nat)
    requires HalfStacked(w, n, k) && k + 1 < n
    ensures HalfStacked(Lock(w, k, k + 1), n, k + 1)
  {
    var w' := Lock(w, k, k + 1);
    assert Box(w.mutex, k + 1) == Mutex(Some(k + 1), []);
    assert w'.prio == w.prio by { assert At(w.prio, k) == 1 && At(w.prio, k + 1) == 1; }
    assert Insert([], k, w.prio) == [k];
    forall m: nat
      ensures Box(w'.mutex, m)
        == if m < n then Mutex(Some(m), if 0 < m <= k + 1 then [m - 1] else []) else Mutex(None, [])
    {
      assert m != k + 1 ==> Box(w'.mutex, m) == Box(w.mutex, m);
    }
    forall t: nat ensures Note(w'.blockedOn, t) == if t < k + 1 then Some(t + 1) else None {
      assert t != k ==> Note(w'.blockedOn, t) == Note(w.blockedOn, t);
    }
  }

  /**
   The tower is reached by locks alone, and then the bound of eight decides whether one
   more lock keeps inheritance.
   */
  lemma TowerBuiltIff(n: nat)
    requires n > 0
    ensures var w := BlockOnNext(TakeOwn(Fresh(Ranks(n)), n), n - 1);
      && Inherited(w.mutex, w.prio)
      && (Inherited(Lock(w, n, 0).mutex, Lock(w, n, 0).prio) <==> n <= 8)
  {
    var w0 := Fresh(Ranks(n));
    OwnTaken(w0, n, n);
    assert HalfStacked(TakeOwn(w0, n), n, 0);
    NextBlocked(TakeOwn(w0, n), n, n - 1);
    var w := BlockOnNext(TakeOwn(w0, n), n - 1);
    assert Stacked(w, n);
    StackedIff(w, n);
  }
}
