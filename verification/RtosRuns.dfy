/**
 Whole runs of tasks that hold one mutex at a time, the model the kernel supports:
 mutual exclusion, first-come order among equals, exact priorities, no inversion.
 */
module RtosRuns {
  import opened Arith
  import opened Common
  import opened Rtos
  import Sched

  // ---------------------------------------------------------------------
  // The invariant
  // ---------------------------------------------------------------------

  /** a is to be granted the mutex before b: higher base priority, or equal and queued earlier. */
  ghost predicate Before(base: map<nat, nat>, ticket: map<nat, nat>, a: nat, b: nat) {
    At(base, a) > At(base, b) || (At(base, a) == At(base, b) && At(ticket, a) < At(ticket, b))
  }

  ghost predicate Ordered(q: seq<nat>, base: map<nat, nat>, ticket: map<nat, nat>) {
    forall i, j :: 0 <= i < j < |q| ==> Before(base, ticket, q[i], q[j])
  }

  ghost predicate QueueOk(b: Mutex, base: map<nat, nat>, ticket: map<nat, nat>) {
    && Distinct(b.waiters) && Ordered(b.waiters, base, ticket)
    && (b.owner.None? ==> b.waiters == [])
    && (b.owner.Some? ==> b.owner.value !in b.waiters)
  }

  ghost predicate Queues(mutex: map<nat, Mutex>, base: map<nat, nat>, ticket: map<nat, nat>, clock: nat) {
    && (forall m: nat :: QueueOk(Box(mutex, m), base, ticket))
    && (forall m: nat, t: nat :: t in Box(mutex, m).waiters ==> At(ticket, t) < clock)
  }

  /** What a task holds it owns and is not blocked; an owner holds the mutex or is about to find it has it. */
  ghost predicate Owned(mutex: map<nat, Mutex>, holding: map<nat, Option<nat>>, blockedOn: map<nat, Option<nat>>) {
    && (forall t: nat :: Note(holding, t).Some? ==>
        Box(mutex, Note(holding, t).value).owner == Some(t) && Note(blockedOn, t).None?)
    && (forall m: nat :: Box(mutex, m).owner.Some? ==>
        var o := Box(mutex, m).owner.value; Note(holding, o) == Some(m) || Note(blockedOn, o) == Some(m))
  }

  /** The priority an owner is due: its own, or that of the first waiter if higher. */
  ghost function Due(base: map<nat, nat>, o: nat, q: seq<nat>): (p: nat) {
    if q != [] && At(base, q[0]) > At(base, o) then At(base, q[0]) else At(base, o)
  }

  ghost predicate Owns(mutex: map<nat, Mutex>, holding: map<nat, Option<nat>>, blockedOn: map<nat, Option<nat>>,
                       t: nat) {
    Note(holding, t).Some? || (Note(blockedOn, t).Some? && Box(mutex, Note(blockedOn, t).value).owner == Some(t))
  }

  /** Owners have exactly the priority they are due. */
  ghost predicate OwnersRanked(mutex: map<nat, Mutex>, base: map<nat, nat>, prio: map<nat, nat>) {
    forall m: nat :: Box(mutex, m).owner.Some? ==>
      At(prio, Box(mutex, m).owner.value) == Due(base, Box(mutex, m).owner.value, Box(mutex, m).waiters)
  }

  /** Everyone else has its base priority. */
  ghost predicate OthersRanked(w: World) {
    forall t: nat :: !Owns(w.mutex, w.holding, w.blockedOn, t) ==> At(w.prio, t) == At(w.base, t)
  }

  ghost predicate Inv(w: World) {
    && Noted(w.mutex, w.blockedOn)
    && Queues(w.mutex, w.base, w.ticket, w.clock)
    && Owned(w.mutex, w.holding, w.blockedOn)
    && OwnersRanked(w.mutex, w.base, w.prio)
    && OthersRanked(w)
  }

  // ---------------------------------------------------------------------
  // Runs
  // ---------------------------------------------------------------------

  datatype Op = DoLock(t: nat, m: nat) | DoResume(t: nat) | DoUnlock(t: nat, m: nat)

  /** One mutex at a time; a blocked task runs again only once it has been handed the mutex. */
  ghost predicate Legal(w: World, op: Op) {
    match op
    case DoLock(t, m) => Note(w.holding, t).None? && Note(w.blockedOn, t).None?
    case DoResume(t) => Note(w.blockedOn, t).Some? && t !in Box(w.mutex, Note(w.blockedOn, t).value).waiters
    case DoUnlock(t, m) => Note(w.holding, t) == Some(m)
  }

  function Apply(w: World, op: Op): (w': World) {
    match op
    case DoLock(t, m) => Lock(w, t, m)
    case DoResume(t) => Resume(w, t)
    case DoUnlock(t, m) => Unlock(w, t, m)
  }

  function Run(w: World, ops: seq<Op>): (w': World)
    decreases |ops|
  {
    if ops == [] then w else Run(Apply(w, ops[0]), ops[1..])
  }

  ghost predicate LegalRun(w: World, ops: seq<Op>)
    decreases |ops|
  {
    ops != [] ==> Legal(w, ops[0]) && LegalRun(Apply(w, ops[0]), ops[1..])
  }

  lemma FreshInv(base: map<nat, nat>)
    ensures Inv(Fresh(base))
  {
  }

  // ---------------------------------------------------------------------
  // Each step keeps the invariant
  // ---------------------------------------------------------------------

  /** A task that neither holds nor waits is in no queue and owns nothing. */
  lemma Idle(w: World, t: nat)
    requires Inv(w) && Note(w.holding, t).None? && Note(w.blockedOn, t).None?
    ensures forall m: nat :: t !in Box(w.mutex, m).waiters && Box(w.mutex, m).owner != Some(t)
    ensures At(w.prio, t) == At(w.base, t)
  {
  }

  /** A task that waits owns nothing, so its priority is its base. */
  lemma WaiterRank(w: World, m: nat, t: nat)
    requires Inv(w) && t in Box(w.mutex, m).waiters
    ensures At(w.prio, t) == At(w.base, t)
  {
    assert QueueOk(Box(w.mutex, m), w.base, w.ticket);
    assert Note(w.blockedOn, t) == Some(m);
  }

  lemma TakeInv(w: World, me: nat, m: nat)
    requires Inv(w) && Note(w.holding, me).None? && Note(w.blockedOn, me).None? && Box(w.mutex, m).owner.None?
    ensures Inv(Lock(w, me, m))
  {
    Idle(w, me);
    var w' := Lock(w, me, m);
    assert QueueOk(Box(w.mutex, m), w.base, w.ticket);
    TakeBox(w, me, m);
    TakeRanked(w, w', me, m);
    assert forall t: nat :: t != me ==> Note(w'.holding, t) == Note(w.holding, t);
  }

  lemma TakeBox(w: World, me: nat, m: nat)
    requires Box(w.mutex, m) == Mutex(None, [])
    ensures var w' := Lock(w, me, m);
      forall m': nat :: Box(w'.mutex, m') == if m' == m then Mutex(Some(me), []) else Box(w.mutex, m')
  {
  }

  lemma TakeRanked(w: World, w': World, me: nat, m: nat)
    requires OwnersRanked(w.mutex, w.base, w.prio) && OthersRanked(w) && At(w.prio, me) == At(w.base, me)
    requires w'.base == w.base && w'.prio == w.prio && w'.blockedOn == w.blockedOn
    requires w'.holding == w.holding[me := Some(m)]
    requires Box(w.mutex, m).owner.None?
    requires forall m': nat :: Box(w'.mutex, m') == if m' == m then Mutex(Some(me), []) else Box(w.mutex, m')
    ensures OwnersRanked(w'.mutex, w'.base, w'.prio) && OthersRanked(w')
  {
    forall t: nat | !Owns(w'.mutex, w'.holding, w'.blockedOn, t) ensures At(w'.prio, t) == At(w'.base, t) {
      if t != me { assert !Owns(w.mutex, w.holding, w.blockedOn, t); }
    }
  }

  /** With one mutex per task a blocked task raises the owner and nobody else. */
  lemma OneHop(w: World, me: nat, m: nat, o: nat)
    requires Inv(w) && Note(w.holding, me).None? && Note(w.blockedOn, me).None? && Box(w.mutex, m).owner == Some(o)
    ensures Contend(w, me, m).prio == if At(w.prio, me) > At(w.prio, o) then w.prio[o := At(w.prio, me)] else w.prio
  {
    Idle(w, me);
    var q, p := Queued(w, me, m), At(w.prio, me);
    assert o != me && Note(q.blockedOn, o) == Note(w.blockedOn, o);
    assert Note(w.holding, o) == Some(m) || Note(w.blockedOn, o) == Some(m);
    assert Behind(q, o).None? || Behind(q, o) == Some(o);
    assert Propagate(q, w.prio, Some(o), p, MAX_DEPTH) ==
      if p <= At(w.prio, o) then w.prio else Propagate(q, w.prio[o := p], Behind(q, o), p, MAX_DEPTH - 1);
  }

  /** The queue stays in granting order: the newcomer goes behind its equals. */
  lemma {:induction false} InsertOrdered(q: seq<nat>, me: nat, w: World, ticket: map<nat, nat>)
    requires Ordered(q, w.base, w.ticket) && At(w.prio, me) == At(w.base, me)
    requires forall t :: t in q ==> At(w.prio, t) == At(w.base, t) && At(ticket, t) == At(w.ticket, t) < At(ticket, me)
    ensures Ordered(Insert(q, me, w.prio), w.base, ticket)
    decreases |q|
  {
    if q == [] || At(w.prio, me) > At(w.prio, q[0]) {
      var r := [me] + q;
      forall i, j | 0 <= i < j < |r| ensures Before(w.base, ticket, r[i], r[j]) {
        assert r[j] == q[j - 1] && q[j - 1] in q;
        if i == 0 && j > 1 { assert Before(w.base, w.ticket, q[0], q[j - 1]); }
        if i > 0 { assert Before(w.base, w.ticket, q[i - 1], q[j - 1]) && q[i - 1] in q; }
      }
    } else {
      TailMembers(q);
      InsertOrdered(q[1..], me, w, ticket);
      InsertMembers(q[1..], me, w.prio);
      var rest := Insert(q[1..], me, w.prio);
      var r := [q[0]] + rest;
      forall i, j | 0 <= i < j < |r| ensures Before(w.base, ticket, r[i], r[j]) {
        if i == 0 {
          HeadFirst(q, w.base, w.ticket);
          assert rest[j - 1] in rest && (rest[j - 1] == me || rest[j - 1] in q[1..]);
        } else {
          assert Before(w.base, ticket, rest[i - 1], rest[j - 1]);
        }
      }
    }
  }

  lemma HeadFirst(q: seq<nat>, base: map<nat, nat>, ticket: map<nat, nat>)
    requires Ordered(q, base, ticket) && q != []
    ensures forall t :: t in q[1..] ==> Before(base, ticket, q[0], t)
  {
    forall t | t in q[1..] ensures Before(base, ticket, q[0], t) {
      var i :| 0 <= i < |q| - 1 && q[1..][i] == t;
      assert q[i + 1] == t;
    }
  }

  lemma ContendQueues(w: World, me: nat, m: nat, o: nat)
    requires Inv(w) && Note(w.holding, me).None? && Note(w.blockedOn, me).None? && Box(w.mutex, m).owner == Some(o)
    ensures var q := Queued(w, me, m); Queues(q.mutex, q.base, q.ticket, q.clock)
  {
    Idle(w, me);
    var q, b := Queued(w, me, m), Box(w.mutex, m);
    QueuedBox(w, me, m);
    InsertMembers(b.waiters, me, w.prio);
    assert QueueOk(b, w.base, w.ticket);
    forall t | t in b.waiters ensures At(w.prio, t) == At(w.base, t) && At(q.ticket, t) == At(w.ticket, t) < w.clock {
      WaiterRank(w, m, t);
    }
    InsertOrdered(b.waiters, me, w, q.ticket);
    forall m': nat ensures QueueOk(Box(q.mutex, m'), q.base, q.ticket) {
      assert QueueOk(Box(w.mutex, m'), w.base, w.ticket);
      if m' != m { OtherQueue(Box(w.mutex, m').waiters, me, w); }
    }
  }

  lemma OtherQueue(q: seq<nat>, me: nat, w: World)
    requires Ordered(q, w.base, w.ticket) && me !in q
    ensures Ordered(q, w.base, w.ticket[me := w.clock])
  {
    forall i, j | 0 <= i < j < |q| ensures Before(w.base, w.ticket[me := w.clock], q[i], q[j]) {
      assert q[i] in q && q[j] in q && Before(w.base, w.ticket, q[i], q[j]);
    }
  }

  /** Raising the owner to a newcomer's rank gives it exactly what it is due with the newcomer queued. */
  lemma NewDue(q: seq<nat>, me: nat, o: nat, base: map<nat, nat>, prio: map<nat, nat>)
    requires At(prio, me) == At(base, me) && At(prio, o) == Due(base, o, q)
    requires (q != [] ==> At(prio, q[0]) == At(base, q[0]))
    ensures Due(base, o, Insert(q, me, prio)) == if At(prio, me) > At(prio, o) then At(prio, me) else At(prio, o)
  {
  }

  lemma ContendOwnersRanked(w: World, me: nat, m: nat, o: nat)
    requires Inv(w) && Note(w.holding, me).None? && Note(w.blockedOn, me).None? && Box(w.mutex, m).owner == Some(o)
    ensures OwnersRanked(Contend(w, me, m).mutex, w.base, Contend(w, me, m).prio)
  {
    Idle(w, me);
    OneHop(w, me, m, o);
    var w', b := Contend(w, me, m), Box(w.mutex, m);
    if b.waiters != [] { WaiterRank(w, m, b.waiters[0]); }
    NewDue(b.waiters, me, o, w.base, w.prio);
    forall m': nat | Box(w'.mutex, m').owner.Some?
      ensures var b := Box(w'.mutex, m'); At(w'.prio, b.owner.value) == Due(w.base, b.owner.value, b.waiters)
    {
      QueuedBox(w, me, m);
      if m' != m && Box(w.mutex, m').owner == Some(o) { OwnsOne(w, m, m', o); }
    }
  }

  lemma ContendOthersRanked(w: World, me: nat, m: nat, o: nat)
    requires Inv(w) && Note(w.holding, me).None? && Note(w.blockedOn, me).None? && Box(w.mutex, m).owner == Some(o)
    ensures OthersRanked(Contend(w, me, m))
  {
    Idle(w, me);
    OneHop(w, me, m, o);
    var w' := Contend(w, me, m);
    assert Note(w.holding, o) == Some(m) || Note(w.blockedOn, o) == Some(m);
    forall t: nat | !Owns(w'.mutex, w'.holding, w'.blockedOn, t) ensures At(w'.prio, t) == At(w.base, t) {
      QueuedBox(w, me, m);
      if t != me { assert Note(w'.blockedOn, t) == Note(w.blockedOn, t); }
    }
  }

  lemma OwnsOne(w: World, m: nat, m': nat, o: nat)
    requires Inv(w) && Box(w.mutex, m).owner == Some(o) && Box(w.mutex, m').owner == Some(o)
    ensures m == m'
  {
    assert Note(w.holding, o) == Some(m) || Note(w.blockedOn, o) == Some(m);
    assert Note(w.holding, o) == Some(m') || Note(w.blockedOn, o) == Some(m');
  }

  lemma ContendOwned(w: World, me: nat, m: nat, o: nat)
    requires Inv(w) && Note(w.holding, me).None? && Note(w.blockedOn, me).None? && Box(w.mutex, m).owner == Some(o)
    ensures var q := Queued(w, me, m); Owned(q.mutex, q.holding, q.blockedOn)
  {
    Idle(w, me);
    QueuedBox(w, me, m);
    var q := Queued(w, me, m);
    assert forall t: nat :: t != me ==> Note(q.blockedOn, t) == Note(w.blockedOn, t);
    assert forall m': nat :: Box(q.mutex, m').owner == Box(w.mutex, m').owner;
  }

  lemma ContendInv(w: World, me: nat, m: nat, o: nat)
    requires Inv(w) && Note(w.holding, me).None? && Note(w.blockedOn, me).None? && Box(w.mutex, m).owner == Some(o)
    ensures Inv(Contend(w, me, m))
  {
    ContendQueues(w, me, m, o);
    ContendOwnersRanked(w, me, m, o);
    ContendOthersRanked(w, me, m, o);
    ContendOwned(w, me, m, o);
    QueuedNoted(w, me, m);
  }

  lemma ResumeInv(w: World, me: nat)
    requires Inv(w) && Legal(w, DoResume(me))
    ensures Inv(Resume(w, me))
  {
    var w' := Resume(w, me);
    assert forall t: nat :: t != me ==>
      Note(w'.blockedOn, t) == Note(w.blockedOn, t) && Note(w'.holding, t) == Note(w.holding, t);
  }

  /** The mutex an unlock leaves behind. */
  ghost function Left(b: Mutex): (b': Mutex) {
    if b.waiters == [] then Mutex(None, []) else Mutex(Some(b.waiters[0]), b.waiters[1..])
  }

  lemma UnlockBox(w: World, me: nat, m: nat)
    ensures forall m': nat {:trigger Box(Unlock(w, me, m).mutex, m')} ::
      Box(Unlock(w, me, m).mutex, m') == if m' == m then Left(Box(w.mutex, m)) else Box(w.mutex, m')
  {
  }

  /** The head leaves the queue, the rest keep their order. */
  lemma LeftOk(b: Mutex, base: map<nat, nat>, ticket: map<nat, nat>)
    requires QueueOk(b, base, ticket)
    ensures QueueOk(Left(b), base, ticket)
    ensures forall t :: t in Left(b).waiters ==> t in b.waiters
    ensures Left(b).owner.Some? ==> Left(b).owner.value in b.waiters
    ensures forall t :: t in b.waiters ==> t in Left(b).waiters || Left(b).owner == Some(t)
    ensures Left(b).owner.Some? ==> Due(base, Left(b).owner.value, Left(b).waiters) == At(base, Left(b).owner.value)
  {
    if b.waiters != [] {
      TailMembers(b.waiters);
      HeadFirst(b.waiters, base, ticket);
      if |b.waiters| > 1 { assert b.waiters[1..][0] in b.waiters[1..]; }
    }
  }

  lemma UnlockQueues(w: World, me: nat, m: nat)
    requires Inv(w)
    ensures Queues(Unlock(w, me, m).mutex, w.base, w.ticket, w.clock)
  {
    UnlockBox(w, me, m);
    forall m': nat ensures QueueOk(Box(Unlock(w, me, m).mutex, m'), w.base, w.ticket) {
      assert QueueOk(Box(w.mutex, m'), w.base, w.ticket);
      LeftOk(Box(w.mutex, m'), w.base, w.ticket);
    }
    LeftOk(Box(w.mutex, m), w.base, w.ticket);
  }

  lemma UnlockNoted(w: World, me: nat, m: nat)
    requires Inv(w) && Note(w.holding, me) == Some(m)
    ensures Noted(Unlock(w, me, m).mutex, w.blockedOn)
  {
    UnlockBox(w, me, m);
    assert QueueOk(Box(w.mutex, m), w.base, w.ticket);
    LeftOk(Box(w.mutex, m), w.base, w.ticket);
  }

  lemma UnlockOwned(w: World, me: nat, m: nat)
    requires Inv(w) && Note(w.holding, me) == Some(m)
    ensures Owned(Unlock(w, me, m).mutex, Unlock(w, me, m).holding, w.blockedOn)
  {
    UnlockBox(w, me, m);
    var w' := Unlock(w, me, m);
    assert QueueOk(Box(w.mutex, m), w.base, w.ticket);
    LeftOk(Box(w.mutex, m), w.base, w.ticket);
    forall t: nat | Note(w'.holding, t).Some?
      ensures Box(w'.mutex, Note(w'.holding, t).value).owner == Some(t) && Note(w.blockedOn, t).None?
    {
      assert t != me && Note(w'.holding, t) == Note(w.holding, t);
    }
    forall m': nat | Box(w'.mutex, m').owner.Some?
      ensures var o := Box(w'.mutex, m').owner.value;
        Note(w'.holding, o) == Some(m') || Note(w.blockedOn, o) == Some(m')
    {
      if m' != m && Box(w.mutex, m').owner == Some(me) { OwnsOne(w, m, m', me); }
    }
  }

  lemma UnlockOwnersRanked(w: World, me: nat, m: nat)
    requires Inv(w) && Note(w.holding, me) == Some(m)
    ensures OwnersRanked(Unlock(w, me, m).mutex, w.base, Unlock(w, me, m).prio)
  {
    UnlockBox(w, me, m);
    var w', b := Unlock(w, me, m), Box(w.mutex, m);
    assert QueueOk(b, w.base, w.ticket);
    LeftOk(b, w.base, w.ticket);
    if b.waiters != [] { WaiterRank(w, m, b.waiters[0]); }
    forall m': nat | Box(w'.mutex, m').owner.Some?
      ensures var b := Box(w'.mutex, m'); At(w'.prio, b.owner.value) == Due(w.base, b.owner.value, b.waiters)
    {
      if m' != m && Box(w.mutex, m').owner == Some(me) { OwnsOne(w, m, m', me); }
    }
  }

  lemma UnlockOthersRanked(w: World, me: nat, m: nat)
    requires Inv(w) && Note(w.holding, me) == Some(m)
    ensures OthersRanked(Unlock(w, me, m))
  {
    var w' := Unlock(w, me, m);
    forall t: nat | !Owns(w'.mutex, w'.holding, w'.blockedOn, t) ensures At(w'.prio, t) == At(w.base, t) {
      if t != me {
        assert Box(w.mutex, m).owner == Some(me);
        UnlockOwns(w, me, m, t);
      }
    }
  }

  /** Whoever owns nothing after an unlock by another task owned nothing before. */
  lemma UnlockOwns(w: World, me: nat, m: nat, t: nat)
    requires Box(w.mutex, m).owner == Some(me) && t != me
    ensures var w' := Unlock(w, me, m);
      && At(w'.prio, t) == At(w.prio, t)
      && (Owns(w.mutex, w.holding, w.blockedOn, t) ==> Owns(w'.mutex, w'.holding, w'.blockedOn, t))
  {
    var w' := Unlock(w, me, m);
    UnlockBox(w, me, m);
    assert Note(w'.holding, t) == Note(w.holding, t) && w'.blockedOn == w.blockedOn;
  }

  lemma UnlockInv(w: World, me: nat, m: nat)
    requires Inv(w) && Note(w.holding, me) == Some(m)
    ensures Inv(Unlock(w, me, m))
  {
    UnlockQueues(w, me, m);
    UnlockNoted(w, me, m);
    UnlockOwned(w, me, m);
    UnlockOwnersRanked(w, me, m);
    UnlockOthersRanked(w, me, m);
  }

  lemma StepInv(w: World, op: Op)
    requires Inv(w) && Legal(w, op)
    ensures Inv(Apply(w, op)) && Apply(w, op).base == w.base
  {
    match op
    case DoLock(t, m) =>
      var owner := Box(w.mutex, m).owner;
      if owner.None? { TakeInv(w, t, m); } else { ContendInv(w, t, m, owner.value); }
    case DoResume(t) => ResumeInv(w, t);
    case DoUnlock(t, m) => UnlockInv(w, t, m);
  }

  // ---------------------------------------------------------------------
  // What holds after every run
  // ---------------------------------------------------------------------

  lemma {:induction false} RunInv(w: World, ops: seq<Op>)
    requires Inv(w) && LegalRun(w, ops)
    ensures Inv(Run(w, ops)) && Run(w, ops).base == w.base
    decreases |ops|
  {
    if ops != [] {
      StepInv(w, ops[0]);
      RunInv(Apply(w, ops[0]), ops[1..]);
    }
  }

  /**
   After every run: no two tasks hold the same mutex; no owner ranks below a task
   waiting for it; a task that owns nothing is back at its own priority, and an owner
   has no more than its best waiter lends it.
   */
  lemma EveryRun(base: map<nat, nat>, ops: seq<Op>)
    requires LegalRun(Fresh(base), ops)
    ensures var w := Run(Fresh(base), ops);
      && (forall m: nat, a: nat, b: nat :: Note(w.holding, a) == Some(m) && Note(w.holding, b) == Some(m) ==> a == b)
      && Inherited(w.mutex, w.prio)
      && (forall t: nat :: (forall m: nat :: Box(w.mutex, m).owner != Some(t)) ==> At(w.prio, t) == At(base, t))
      && OwnersRanked(w.mutex, base, w.prio)
  {
    FreshInv(base);
    RunInv(Fresh(base), ops);
    var w := Run(Fresh(base), ops);
    InvInherited(w);
    forall t: nat | forall m: nat :: Box(w.mutex, m).owner != Some(t) ensures At(w.prio, t) == At(base, t) {
      assert !Owns(w.mutex, w.holding, w.blockedOn, t);
    }
  }

  lemma InvInherited(w: World)
    requires Inv(w)
    ensures Inherited(w.mutex, w.prio)
  {
    forall m: nat, t: nat, o: nat | Waits(w.mutex, m, t, o) ensures At(w.prio, t) <= At(w.prio, o) {
      WaiterRank(w, m, t);
      var b := Box(w.mutex, m);
      assert QueueOk(b, w.base, w.ticket);
      HeadFirst(b.waiters, w.base, w.ticket);
      TailMembers(b.waiters);
    }
  }

  /** An unlock grants the mutex to the waiter of highest priority, the longest waiting among equals. */
  lemma GrantsBest(base: map<nat, nat>, ops: seq<Op>, me: nat, m: nat, t: nat)
    requires LegalRun(Fresh(base), ops)
    requires var w := Run(Fresh(base), ops); Note(w.holding, me) == Some(m) && t in Box(w.mutex, m).waiters
    ensures var w, w' := Run(Fresh(base), ops), Unlock(Run(Fresh(base), ops), me, m);
      && Box(w'.mutex, m).owner.Some?
      && var next := Box(w'.mutex, m).owner.value;
      next in Box(w.mutex, m).waiters && (next == t || Before(base, w.ticket, next, t))
  {
    FreshInv(base);
    RunInv(Fresh(base), ops);
    var w := Run(Fresh(base), ops);
    var b := Box(w.mutex, m);
    assert QueueOk(b, w.base, w.ticket);
    HeadFirst(b.waiters, w.base, w.ticket);
    TailMembers(b.waiters);
  }

  /**
   No unbounded inversion: whenever the scheduler picks a task while the owner of a
   mutex can run, it picks one that ranks no lower than any task waiting for it.
   */
  lemma NoInversion(base: map<nat, nat>, ops: seq<Op>, s: Sched.Tasks, m: nat, t: nat, o: nat)
    requires LegalRun(Fresh(base), ops) && Waits(Run(Fresh(base), ops).mutex, m, t, o)
    requires Sched.Leaving(s) && o in s.ring && Sched.Runnable(Sched.Reap(s), o)
    requires forall x :: x in s.ring ==> s.prio[x] == At(Run(Fresh(base), ops).prio, x)
    ensures Sched.Known(Sched.Reap(s), Sched.Order(s)) && Sched.Pick(Sched.Reap(s)) in s.ring
    ensures At(Run(Fresh(base), ops).prio, t) <= s.prio[Sched.Pick(Sched.Reap(s))]
  {
    EveryRun(base, ops);
    Sched.PicksHighest(s, o);
  }
}
