/**
 The split virtqueue: a descriptor table whose free entries form a list threaded
 through their own `next` fields, an available ring the driver fills and a used
 ring the device fills, both addressed by 16-bit counters that wrap.

 `Queue` is the memory the driver and the device share, and every operation is a
 function on it. `Ledger` is a machine with no memory layout at all: a free list,
 a map from heads to chains, and two unbounded logs. The theorems in
 VirtqueueRuns say that the first behaves as the second for ever, and
 `SharedQueue.Driver` runs the operations in place.
 */
module Virtqueue {
  import opened Arith

  const MAX_SIZE: nat := 128
  const NO_DESC: nat := 0xFFFF
  const WRAP: nat := 0x1_0000
  const F_NEXT: bv16 := 1

  datatype Desc = Desc(addr: nat, len: nat, flags: bv16, next: nat)
  datatype UsedElem = UsedElem(id: nat, len: nat)
  datatype Seg = Seg(pa: nat, len: nat, flags: bv16)

  /** The descriptor table and its free list. */
  datatype Table = Table(desc: seq<Desc>, freeHead: nat, numFree: nat)

  /** The two rings and the driver's place in the used one. */
  datatype Rings = Rings(availIdx: nat, avail: seq<nat>, usedIdx: nat, used: seq<UsedElem>, lastUsed: nat)

  datatype Queue = Queue(size: nat, table: Table, rings: Rings)

  /** What a 16-bit counter shows after n counts. */
  function Wrap(n: nat): (w: nat) {
    n % 0x1_0000
  }

  predicate HasNext(flags: bv16) {
    flags & F_NEXT != 0
  }

  ghost predicate TableShape(t: Table, size: nat) {
    0 < size <= MAX_SIZE == |t.desc|
  }

  ghost predicate RingShape(r: Rings, size: nat) {
    0 < size <= MAX_SIZE == |r.avail| == |r.used|
  }

  ghost predicate Shape(q: Queue) {
    TableShape(q.table, q.size) && RingShape(q.rings, q.size)
  }

  /** `free` is the list threaded through the table from its head. */
  ghost predicate Threaded(t: Table, size: nat, free: seq<nat>) {
    && size <= |t.desc|
    && t.freeHead == (if free == [] then NO_DESC else free[0])
    && (forall i :: 0 <= i < |free| ==> free[i] < size)
    && (forall i {:trigger t.desc[free[i]]} :: 0 <= i < |free| ==>
        t.desc[free[i]].next == if i + 1 < |free| then free[i + 1] else NO_DESC)
    && Distinct(free)
  }

  /** The free list is whole and `numFree` counts it. */
  ghost predicate Backed(t: Table, size: nat) {
    && TableShape(t, size) && t.numFree < WRAP
    && exists free :: Threaded(t, size, free) && |free| == t.numFree
  }

  // ---------------------------------------------------------------------
  // Driver operations
  // ---------------------------------------------------------------------

  /** virtqueue_setup: table entries past the negotiated size are left as they were. */
  function Setup(was: seq<Desc>, size: nat): (q: Queue)
    requires |was| == MAX_SIZE
  {
    var desc := seq(MAX_SIZE, i requires 0 <= i < MAX_SIZE =>
      if i < size then Desc(0, 0, 0, if i + 1 < size then i + 1 else NO_DESC) else was[i]);
    Queue(size, Table(desc, if size > 0 then 0 else NO_DESC, size),
          Rings(0, seq(MAX_SIZE, _ => 0), 0, seq(MAX_SIZE, _ => UsedElem(0, 0)), 0))
  }

  /** Pop the head of the free list. */
  function Alloc(t: Table): (t': Table)
    requires t.freeHead < |t.desc|
  {
    t.(freeHead := t.desc[t.freeHead].next, numFree := Wrap(t.numFree + WRAP - 1))
  }

  /** The first n descriptors of the free list, in order. */
  function Heads(t: Table, size: nat, n: nat): (idx: seq<nat>)
    requires Backed(t, size) && n <= t.numFree
    ensures |idx| == n && forall k :: 0 <= k < n ==> idx[k] < size
    decreases n
  {
    if n == 0 then [] else
      BackedAlloc(t, size);
      [t.freeHead] + Heads(Alloc(t), size, n - 1)
  }

  function AllocMany(t: Table, size: nat, n: nat): (t': Table)
    requires Backed(t, size) && n <= t.numFree
    ensures t'.desc == t.desc
    decreases n
  {
    if n == 0 then t else
      BackedAlloc(t, size);
      AllocMany(Alloc(t), size, n - 1)
  }

  lemma HeadsStep(t: Table, size: nat, n: nat, idx: seq<nat>)
    requires Backed(t, size) && 0 < n <= t.numFree
    ensures Backed(Alloc(t), size) && n - 1 <= Alloc(t).numFree
    ensures idx + Heads(t, size, n) == (idx + [t.freeHead]) + Heads(Alloc(t), size, n - 1)
    ensures AllocMany(t, size, n) == AllocMany(Alloc(t), size, n - 1)
  {
    BackedAlloc(t, size);
    assert Heads(t, size, n) == [t.freeHead] + Heads(Alloc(t), size, n - 1);
  }

  /** What descriptor idx[i] of a chain holds. */
  function Link(idx: seq<nat>, segs: seq<Seg>, i: nat): (d: Desc)
    requires i < |idx| == |segs|
  {
    if i + 1 < |idx| then Desc(segs[i].pa, segs[i].len, segs[i].flags | F_NEXT, idx[i + 1])
    else Desc(segs[i].pa, segs[i].len, segs[i].flags, 0)
  }

  /** Fill in the first n descriptors of a chain. */
  function LinkUpTo(desc: seq<Desc>, idx: seq<nat>, segs: seq<Seg>, n: nat): (d: seq<Desc>)
    requires n <= |idx| == |segs|
    requires forall k :: 0 <= k < |idx| ==> idx[k] < |desc|
    ensures |d| == |desc|
  {
    if n == 0 then desc else LinkUpTo(desc, idx, segs, n - 1)[idx[n - 1] := Link(idx, segs, n - 1)]
  }

  /** Publish a head: fill the next available slot, then bump the index. */
  function Offer(r: Rings, size: nat, head: nat): (r': Rings)
    requires RingShape(r, size)
    ensures RingShape(r', size)
  {
    r.(avail := r.avail[(r.availIdx % size) := head], availIdx := Wrap(r.availIdx + 1))
  }

  /** virtqueue_submit_chain: the queue after, and the head or NO_DESC. */
  function SubmitChain(q: Queue, segs: seq<Seg>): (r: (Queue, nat))
    requires Shape(q) && Backed(q.table, q.size)
  {
    if |segs| == 0 || |segs| > q.table.numFree then (q, NO_DESC) else
      var idx := Heads(q.table, q.size, |segs|);
      var popped := AllocMany(q.table, q.size, |segs|);
      var linked := popped.(desc := LinkUpTo(popped.desc, idx, segs, |segs|));
      (q.(table := linked, rings := Offer(q.rings, q.size, idx[0])), idx[0])
  }

  /** virtqueue_submit: one descriptor, never marked as continued. */
  function Submit(q: Queue, pa: nat, len: nat, flags: bv16): (r: (Queue, nat))
    requires Shape(q) && Backed(q.table, q.size)
  {
    if q.table.freeHead == NO_DESC then (q, NO_DESC) else
      BackedHead(q.table, q.size);
      var head := q.table.freeHead;
      var entry := Desc(pa, len, flags & !F_NEXT, 0);
      (q.(table := Alloc(q.table).(desc := q.table.desc[head := entry]),
          rings := Offer(q.rings, q.size, head)), head)
  }

  /** How many descriptors are marked as continued. */
  function Continued(desc: seq<Desc>): (n: nat) {
    if |desc| == 0 then 0
    else Continued(desc[..|desc| - 1]) + if HasNext(desc[|desc| - 1].flags) then 1 else 0
  }

  /** Put one descriptor back on the free list. */
  function Push(t: Table, idx: nat): (t': Table)
    requires idx < |t.desc|
  {
    t.(desc := t.desc[idx := Desc(0, 0, 0, t.freeHead)], freeHead := idx, numFree := Wrap(t.numFree + 1))
  }

  /**
   virtqueue_free_chain. Clearing the flags of every descriptor it passes is what
   stops it on a chain of any shape, a cyclic one included.
   */
  function FreeChain(t: Table, size: nat, idx: nat): (t': Table)
    requires TableShape(t, size)
    ensures TableShape(t', size)
    decreases Continued(t.desc)
  {
    if idx >= size then t
    else if !HasNext(t.desc[idx].flags) then Push(t, idx)
    else
      ContinuedUpdate(t.desc, idx, Desc(0, 0, 0, t.freeHead));
      FreeChain(Push(t, idx), size, t.desc[idx].next)
  }

  /** What a reap reports. */
  datatype Reaped = Nothing | Done(elem: UsedElem)

  /** virtqueue_get_used: the queue after, and the completion it reports. */
  function GetUsed(q: Queue): (r: (Queue, Reaped))
    requires Shape(q)
  {
    if q.rings.usedIdx == q.rings.lastUsed then (q, Nothing) else
      var e := q.rings.used[q.rings.lastUsed % q.size];
      var rings := q.rings.(lastUsed := Wrap(q.rings.lastUsed + 1));
      if e.id >= q.size then (q.(rings := rings), Nothing)
      else (q.(rings := rings, table := FreeChain(q.table, q.size, e.id)), Done(e))
  }

  // ---------------------------------------------------------------------
  // Device operations
  // ---------------------------------------------------------------------

  /** The device reads the slot its own wrapping counter points at. */
  function ReadAvail(r: Rings, size: nat, cursor: nat): (head: nat)
    requires RingShape(r, size)
  {
    r.avail[cursor % size]
  }

  /** The device publishes a completion. */
  function PutUsed(r: Rings, size: nat, e: UsedElem): (r': Rings)
    requires RingShape(r, size)
    ensures RingShape(r', size)
  {
    r.(used := r.used[(r.usedIdx % size) := e], usedIdx := Wrap(r.usedIdx + 1))
  }

  // ---------------------------------------------------------------------
  // Helpers the definitions above rest on
  // ---------------------------------------------------------------------

  lemma BackedHead(t: Table, size: nat)
    requires Backed(t, size)
    ensures t.numFree > 0 <==> t.freeHead != NO_DESC
    ensures t.numFree > 0 ==> t.freeHead < size
  {
    var free :| Threaded(t, size, free) && |free| == t.numFree;
  }

  lemma BackedAlloc(t: Table, size: nat)
    requires Backed(t, size) && 0 < t.numFree
    ensures t.freeHead < size && Backed(Alloc(t), size) && Alloc(t).numFree == t.numFree - 1
  {
    var free :| Threaded(t, size, free) && |free| == t.numFree;
    assert t.desc[free[0]].next == if 1 < |free| then free[1] else NO_DESC;
    assert Threaded(Alloc(t), size, free[1..]);
  }

  lemma {:induction false} ContinuedUpdate(desc: seq<Desc>, i: nat, d: Desc)
    requires i < |desc| && !HasNext(d.flags)
    ensures Continued(desc[i := d]) == Continued(desc) - if HasNext(desc[i].flags) then 1 else 0
  {
    var n := |desc| - 1;
    if i < n {
      ContinuedUpdate(desc[..n], i, d);
      assert desc[i := d][..n] == desc[..n][i := d];
    } else {
      assert desc[i := d][..n] == desc[..n];
    }
  }

  // ---------------------------------------------------------------------
  // The abstract machine
  // ---------------------------------------------------------------------

  /** Who holds a descriptor. */
  datatype Owner = Free | Chained(head: nat)

  /** A submitted chain: its descriptors, the segments they carry, its place in the log. */
  datatype Chain = Chain(idx: seq<nat>, segs: seq<Seg>, pos: nat)

  /** The free list and the outstanding chains. */
  datatype Books = Books(free: seq<nat>, chains: map<nat, Chain>, owner: seq<Owner>)

  /** How far an outstanding chain has got. */
  datatype Stage = Queued(pos: nat) | Taken | Complete(pos: nat)

  /** Every submission and every completion ever made, and how far each side has read. */
  datatype Log = Log(stage: map<nat, Stage>, avail: seq<nat>, seen: nat, used: seq<UsedElem>, reaped: nat)

  datatype Ledger = Ledger(books: Books, log: Log)

  ghost function Open(size: nat): (l: Ledger) {
    Ledger(Books(seq(size, i => i), map[], seq(size, _ => Free)), Log(map[], [], 0, [], 0))
  }

  ghost function Reown(owner: seq<Owner>, c: seq<nat>, o: Owner): (owner': seq<Owner>) {
    seq(|owner|, d requires 0 <= d < |owner| => if d in c then o else owner[d])
  }

  /** Carry `segs` on the first free descriptors and log the head. */
  ghost function Book(l: Ledger, segs: seq<Seg>): (l': Ledger)
    requires 0 < |segs| <= |l.books.free|
  {
    var b, c, pos := l.books, l.books.free[..|segs|], |l.log.avail|;
    Ledger(Books(b.free[|segs|..], b.chains[c[0] := Chain(c, segs, pos)], Reown(b.owner, c, Chained(c[0]))),
           l.log.(stage := l.log.stage[c[0] := Queued(pos)], avail := l.log.avail + [c[0]]))
  }

  ghost function Take(g: Log): (g': Log)
    requires g.seen < |g.avail|
  {
    g.(seen := g.seen + 1, stage := g.stage[g.avail[g.seen] := Taken])
  }

  ghost function Finish(g: Log, e: UsedElem): (g': Log) {
    g.(used := g.used + [e], stage := g.stage[e.id := Complete(|g.used|)])
  }

  function Reversed(s: seq<nat>): (r: seq<nat>)
    ensures |r| == |s| && forall i :: 0 <= i < |r| ==> r[i] == s[|s| - 1 - i]
  {
    if s == [] then [] else [s[|s| - 1]] + Reversed(s[..|s| - 1])
  }

  /** Put a chain's descriptors back, last one first. */
  ghost function Unbook(b: Books, h: nat): (b': Books)
    requires h in b.chains
  {
    var c := b.chains[h].idx;
    Books(Reversed(c) + b.free, b.chains - {h}, Reown(b.owner, c, Free))
  }

  /** Return the oldest completed chain. */
  ghost function Settle(l: Ledger): (l': Ledger)
    requires l.log.reaped < |l.log.used| && l.log.used[l.log.reaped].id in l.books.chains
  {
    var h := l.log.used[l.log.reaped].id;
    Ledger(Unbook(l.books, h), l.log.(stage := l.log.stage - {h}, reaped := l.log.reaped + 1))
  }

  // ---------------------------------------------------------------------
  // What ties the two together
  // ---------------------------------------------------------------------

  /** The table holds a chain's segments, each descriptor but the last continuing to the next. */
  ghost predicate InTable(desc: seq<Desc>, size: nat, c: Chain) {
    && |c.idx| == |c.segs| > 0 && size <= |desc|
    && (forall i :: 0 <= i < |c.idx| ==> c.idx[i] < size)
    && (forall i {:trigger desc[c.idx[i]]} :: 0 <= i < |c.idx| ==> desc[c.idx[i]] == Link(c.idx, c.segs, i))
    && Plain(c.segs)
    && Distinct(c.idx)
  }

  /** Segments as callers must pass them: the continuation bit is the queue's to set. */
  ghost predicate Plain(segs: seq<Seg>) {
    forall i :: 0 <= i < |segs| ==> !HasNext(segs[i].flags)
  }

  /** A descriptor is where its owner says. */
  ghost predicate Placed(b: Books, d: nat)
    requires d < |b.owner|
  {
    match b.owner[d]
    case Free => d in b.free
    case Chained(h) => h in b.chains && d in b.chains[h].idx
  }

  /** A chain starts at its head and owns all its descriptors. */
  ghost predicate Holds(b: Books, h: nat)
    requires h in b.chains
  {
    && b.chains[h].idx != [] && b.chains[h].idx[0] == h
    && forall i :: 0 <= i < |b.chains[h].idx| ==>
         b.chains[h].idx[i] < |b.owner| && b.owner[b.chains[h].idx[i]] == Chained(h)
  }

  /** Each descriptor is on the free list or in exactly one chain, as `owner` records. */
  ghost predicate Partition(b: Books, size: nat) {
    && |b.owner| == size && Distinct(b.free)
    && (forall i :: 0 <= i < |b.free| ==> b.free[i] < size && b.owner[b.free[i]] == Free)
    && (forall d :: 0 <= d < size ==> Placed(b, d))
    && (forall h :: h in b.chains ==> Holds(b, h))
  }

  /** The table holds the books. */
  ghost predicate Recorded(t: Table, size: nat, b: Books) {
    && TableShape(t, size)
    && Threaded(t, size, b.free)
    && t.numFree == |b.free|
    && (forall h :: h in b.chains ==> InTable(t.desc, size, b.chains[h]))
  }

  /** Every outstanding chain is at one stage: queued, taken, or complete and unreaped. */
  ghost predicate Staged(g: Log, outstanding: set<nat>) {
    && g.seen <= |g.avail| && g.reaped <= |g.used|
    && g.stage.Keys == outstanding
    && (forall k :: g.seen <= k < |g.avail| ==> g.avail[k] in g.stage && g.stage[g.avail[k]] == Queued(k))
    && (forall k :: g.reaped <= k < |g.used| ==> g.used[k].id in g.stage && g.stage[g.used[k].id] == Complete(k))
  }

  /** The ring holds the log's entries from `lo` on. */
  ghost predicate Window<T>(ring: seq<T>, size: nat, log: seq<T>, lo: nat) {
    && 0 < size <= |ring| && lo <= |log|
    && forall k :: lo <= k < |log| ==> ring[k % size] == log[k]
  }

  /** The rings hold the unread windows of the logs, and the counters are the logs' lengths. */
  ghost predicate Windows(r: Rings, size: nat, g: Log) {
    && RingShape(r, size)
    && WRAP % size == 0
    && r.availIdx == Wrap(|g.avail|)
    && r.usedIdx == Wrap(|g.used|)
    && r.lastUsed == Wrap(g.reaped)
    && Window(r.avail, size, g.avail, g.seen)
    && Window(r.used, size, g.used, g.reaped)
  }

  ghost predicate Inv(q: Queue, l: Ledger) {
    && Recorded(q.table, q.size, l.books)
    && Partition(l.books, q.size)
    && Staged(l.log, l.books.chains.Keys)
    && Windows(q.rings, q.size, l.log)
  }
}
