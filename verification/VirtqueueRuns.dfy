/** Every step of driver and device keeps the shared memory in step with the ledger. */
module VirtqueueRuns {
  import opened Arith
  import opened Virtqueue

  // ---------------------------------------------------------------------
  // Bounds: what is outstanding never outgrows the table
  // ---------------------------------------------------------------------

  lemma QueuedFits(b: Books, g: Log, size: nat)
    requires Partition(b, size) && Staged(g, b.chains.Keys)
    ensures |b.free| + (|g.avail| - g.seen) <= size
  {
    forall h | h in b.chains ensures h < size && b.owner[h] == Chained(h) { assert Holds(b, h); }
    DistinctBelow(b.free + g.avail[g.seen..], size);
  }

  /** `extra`: heads that the device holds and has not published. */
  lemma CompleteFits(b: Books, g: Log, size: nat, extra: seq<nat>)
    requires Partition(b, size) && Staged(g, b.chains.Keys) && Distinct(extra)
    requires forall i :: 0 <= i < |extra| ==> extra[i] in g.stage && g.stage[extra[i]] == Taken
    ensures |extra| + (|g.used| - g.reaped) <= size
  {
    forall h | h in b.chains ensures h < size { assert Holds(b, h); }
    var n := |g.used| - g.reaped;
    var ids := seq(n, i requires 0 <= i < n => g.used[g.reaped + i].id);
    assert forall i :: 0 <= i < n ==> g.stage[ids[i]] == Complete(g.reaped + i);
    DistinctBelow(extra + ids, size);
  }

  /** Writing past the end of a window that is not full leaves the window alone. */
  lemma WindowPush<T>(ring: seq<T>, size: nat, log: seq<T>, lo: nat, x: T)
    requires Window(ring, size, log, lo) && |log| - lo < size
    ensures Window(ring[|log| % size := x], size, log + [x], lo)
  {
    forall k | lo <= k < |log| ensures k % size != |log| % size {
      if k % size == |log| % size { ModSame(|log|, k, size); }
    }
  }

  /** Bumping a 16-bit counter counts, modulo the wrap. */
  lemma Bump(n: nat)
    ensures Wrap(Wrap(n) + 1) == Wrap(n + 1)
  {
  }

  lemma Small(n: nat)
    requires n < WRAP
    ensures Wrap(n) == n
  {
  }

  /** Two 16-bit counters less than a wrap apart are equal only when the counts are. */
  lemma SameCount(a: nat, b: nat)
    requires a <= b < a + WRAP
    ensures Wrap(a) == Wrap(b) <==> a == b
  {
    if Wrap(a) == Wrap(b) { ModSame(b, a, WRAP); }
  }

  // ---------------------------------------------------------------------
  // Submission
  // ---------------------------------------------------------------------

  lemma {:induction false} HeadsAre(t: Table, size: nat, free: seq<nat>, n: nat)
    requires Backed(t, size) && Threaded(t, size, free) && n <= |free| == t.numFree
    ensures Heads(t, size, n) == free[..n]
    ensures AllocMany(t, size, n) == t.(freeHead := if n < |free| then free[n] else NO_DESC, numFree := |free| - n)
    decreases n
  {
    if n > 0 {
      BackedAlloc(t, size);
      assert t.desc[free[0]].next == if 1 < |free| then free[1] else NO_DESC;
      assert Threaded(Alloc(t), size, free[1..]);
      HeadsAre(Alloc(t), size, free[1..], n - 1);
      assert free[..n] == [free[0]] + free[1..][..n - 1];
    }
  }

  lemma LinkUpToAt(desc: seq<Desc>, idx: seq<nat>, segs: seq<Seg>, n: nat)
    requires n <= |idx| == |segs| && Distinct(idx)
    requires forall k :: 0 <= k < |idx| ==> idx[k] < |desc|
    ensures forall d :: 0 <= d < |desc| && d !in idx[..n] ==> LinkUpTo(desc, idx, segs, n)[d] == desc[d]
    ensures forall i :: 0 <= i < n ==> LinkUpTo(desc, idx, segs, n)[idx[i]] == Link(idx, segs, i)
  {
    forall d | 0 <= d < |desc| && d !in idx[..n] ensures LinkUpTo(desc, idx, segs, n)[d] == desc[d] {
      forall k | 0 <= k < n ensures idx[k] != d { assert idx[..n][k] == idx[k]; }
      LinkOther(desc, idx, segs, n, d);
    }
    forall i | 0 <= i < n ensures LinkUpTo(desc, idx, segs, n)[idx[i]] == Link(idx, segs, i) {
      LinkOwn(desc, idx, segs, n, i);
    }
  }

  lemma {:induction false} LinkOther(desc: seq<Desc>, idx: seq<nat>, segs: seq<Seg>, n: nat, d: nat)
    requires n <= |idx| == |segs| && d < |desc| && (forall k :: 0 <= k < |idx| ==> idx[k] < |desc|)
    requires forall k :: 0 <= k < n ==> idx[k] != d
    ensures LinkUpTo(desc, idx, segs, n)[d] == desc[d]
  {
    if n > 0 { LinkOther(desc, idx, segs, n - 1, d); }
  }

  lemma {:induction false} LinkOwn(desc: seq<Desc>, idx: seq<nat>, segs: seq<Seg>, n: nat, i: nat)
    requires i < n <= |idx| == |segs| && Distinct(idx) && forall k :: 0 <= k < |idx| ==> idx[k] < |desc|
    ensures LinkUpTo(desc, idx, segs, n)[idx[i]] == Link(idx, segs, i)
  {
    if i < n - 1 {
      LinkOwn(desc, idx, segs, n - 1, i);
      assert idx[i] != idx[n - 1];
    }
  }

  lemma InvBacked(q: Queue, l: Ledger)
    requires Inv(q, l)
    ensures Shape(q) && Backed(q.table, q.size)
  {
    DistinctBelow(l.books.free, q.size);
  }

  /** The memory after a submission that fits, field by field. */
  lemma SubmitChainIs(q: Queue, l: Ledger, segs: seq<Seg>)
    requires Inv(q, l) && 0 < |segs| <= |l.books.free|
    ensures Shape(q) && Backed(q.table, q.size)
    ensures var n, free := |segs|, l.books.free;
      SubmitChain(q, segs) ==
        (Queue(q.size,
               Table(LinkUpTo(q.table.desc, free[..n], segs, n), if n < |free| then free[n] else NO_DESC, |free| - n),
               Offer(q.rings, q.size, free[0])), free[0])
  {
    InvBacked(q, l);
    HeadsAre(q.table, q.size, l.books.free, |segs|);
    ChainFields(q, l.books.free, segs);
  }

  lemma ChainFields(q: Queue, free: seq<nat>, segs: seq<Seg>)
    requires Shape(q) && Backed(q.table, q.size) && 0 < |segs| <= |free| == q.table.numFree
    requires var n := |segs|;
      && Heads(q.table, q.size, n) == free[..n] && (forall k :: 0 <= k < n ==> free[..n][k] < |q.table.desc|)
      && AllocMany(q.table, q.size, n)
         == q.table.(freeHead := if n < |free| then free[n] else NO_DESC, numFree := |free| - n)
    ensures var n := |segs|;
      SubmitChain(q, segs) ==
        (Queue(q.size,
               Table(LinkUpTo(q.table.desc, free[..n], segs, n), if n < |free| then free[n] else NO_DESC, |free| - n),
               Offer(q.rings, q.size, free[0])), free[0])
  {
    assert free[..|segs|][0] == free[0];
  }

  /** A chain submission takes the first free descriptors, and nothing when they do not suffice. */
  lemma SubmitChainInv(q: Queue, l: Ledger, segs: seq<Seg>)
    requires Inv(q, l) && Plain(segs)
    ensures Shape(q) && Backed(q.table, q.size)
    ensures |segs| == 0 || |segs| > |l.books.free| ==> SubmitChain(q, segs) == (q, 0xFFFF)
    ensures 0 < |segs| <= |l.books.free| ==>
      SubmitChain(q, segs).1 == l.books.free[0] && Inv(SubmitChain(q, segs).0, Book(l, segs))
  {
    InvBacked(q, l);
    if 0 < |segs| <= |l.books.free| {
      SubmitChainIs(q, l, segs);
      BookRecorded(q, l, segs);
      BookPartition(l, q.size, segs);
      BookStaged(l, q.size, segs);
      QueuedFits(l.books, l.log, q.size);
      OfferWindows(q.rings, q.size, l.log, l.books.free[0]);
    }
  }

  lemma BookRecorded(q: Queue, l: Ledger, segs: seq<Seg>)
    requires Inv(q, l) && Plain(segs) && 0 < |segs| <= |l.books.free|
    ensures Shape(q) && Backed(q.table, q.size)
    ensures Recorded(SubmitChain(q, segs).0.table, q.size, Book(l, segs).books)
  {
    var b, n := l.books, |segs|;
    SubmitChainIs(q, l, segs);
    var t' := SubmitChain(q, segs).0.table;
    LinkUpToAt(q.table.desc, b.free[..n], segs, n);
    BookFree(q.table, t', q.size, b.free, n);
    BookChains(q.table.desc, t'.desc, q.size, l, segs);
  }

  lemma BookFree(t: Table, t': Table, size: nat, free: seq<nat>, n: nat)
    requires |t.desc| == |t'.desc| && n <= |free| && Threaded(t, size, free)
    requires t'.freeHead == if n < |free| then free[n] else NO_DESC
    requires forall d :: 0 <= d < |t.desc| && d !in free[..n] ==> t'.desc[d] == t.desc[d]
    ensures Threaded(t', size, free[n..])
  {
    forall i | 0 <= i < |free| - n ensures t'.desc[free[n..][i]] == t.desc[free[n + i]] {
      assert free[n + i] !in free[..n];
    }
  }

  lemma BookChains(desc: seq<Desc>, desc': seq<Desc>, size: nat, l: Ledger, segs: seq<Seg>)
    requires size <= |desc| == |desc'| && Partition(l.books, size) && Plain(segs) && 0 < |segs| <= |l.books.free|
    requires forall h :: h in l.books.chains ==> InTable(desc, size, l.books.chains[h])
    requires var idx := l.books.free[..|segs|];
      && (forall d :: 0 <= d < |desc| && d !in idx ==> desc'[d] == desc[d])
      && (forall i :: 0 <= i < |idx| ==> desc'[idx[i]] == Link(idx, segs, i))
    ensures var chains := Book(l, segs).books.chains; forall h :: h in chains ==> InTable(desc', size, chains[h])
  {
    var b, idx := l.books, l.books.free[..|segs|];
    forall h | h in b.chains && h != idx[0] ensures InTable(desc', size, b.chains[h]) {
      var c := b.chains[h];
      forall i | 0 <= i < |c.idx| ensures desc'[c.idx[i]] == desc[c.idx[i]] {
        assert Holds(b, h) && b.owner[c.idx[i]] == Chained(h);
      }
    }
  }

  lemma BookPartition(l: Ledger, size: nat, segs: seq<Seg>)
    requires Partition(l.books, size) && 0 < |segs| <= |l.books.free|
    ensures Partition(Book(l, segs).books, size)
  {
    var b, b', c := l.books, Book(l, segs).books, l.books.free[..|segs|];
    assert b.free == c + b'.free;
    forall h | h in b'.chains ensures Holds(b', h) {
      if h != c[0] { assert Holds(b, h); }
    }
    forall d | 0 <= d < size ensures Placed(b', d) {
      assert Placed(b, d);
      if d !in c && b.owner[d].Chained? { assert Holds(b, b.owner[d].head) && Holds(b', c[0]); }
    }
  }

  lemma BookStaged(l: Ledger, size: nat, segs: seq<Seg>)
    requires Partition(l.books, size) && Staged(l.log, l.books.chains.Keys) && 0 < |segs| <= |l.books.free|
    ensures Staged(Book(l, segs).log, Book(l, segs).books.chains.Keys)
  {
    var b := l.books;
    assert b.owner[b.free[0]] == Free;
    assert forall h :: h in b.chains ==> Holds(b, h) && b.owner[h] == Chained(h);
  }

  lemma OfferWindows(r: Rings, size: nat, g: Log, head: nat)
    requires Windows(r, size, g) && |g.avail| - g.seen < size
    ensures Windows(Offer(r, size, head), size, g.(avail := g.avail + [head]))
  {
    ModMod(|g.avail|, WRAP, size);
    Bump(|g.avail|);
    WindowPush(r.avail, size, g.avail, g.seen, head);
  }

  /** A single submission is a chain of one whose continuation bit has been cleared. */
  lemma SubmitIsChain(q: Queue, l: Ledger, pa: nat, len: nat, flags: bv16)
    requires Inv(q, l)
    ensures Shape(q) && Backed(q.table, q.size)
    ensures Submit(q, pa, len, flags) == SubmitChain(q, [Seg(pa, len, flags & !F_NEXT)])
    ensures Plain([Seg(pa, len, flags & !F_NEXT)])
  {
    InvBacked(q, l);
    Cleared(pa, len, flags);
    SubmitSame(q, pa, len, flags);
  }

  lemma Cleared(pa: nat, len: nat, flags: bv16)
    ensures Plain([Seg(pa, len, flags & !F_NEXT)])
  {
    NextBit(flags);
  }

  lemma SubmitSame(q: Queue, pa: nat, len: nat, flags: bv16)
    requires Shape(q) && Backed(q.table, q.size)
    ensures Submit(q, pa, len, flags) == SubmitChain(q, [Seg(pa, len, flags & !F_NEXT)])
  {
    BackedHead(q.table, q.size);
    if q.table.numFree > 0 { ChainOfOne(q, Seg(pa, len, flags & !F_NEXT)); }
  }

  lemma ChainOfOne(q: Queue, seg: Seg)
    requires Shape(q) && Backed(q.table, q.size) && q.table.numFree > 0
    ensures q.table.freeHead < |q.table.desc|
    ensures var head := q.table.freeHead;
      SubmitChain(q, [seg]) == (q.(
        table := Alloc(q.table).(desc := q.table.desc[head := Desc(seg.pa, seg.len, seg.flags, 0)]),
        rings := Offer(q.rings, q.size, head)), head)
  {
    BackedHead(q.table, q.size);
    HeadsStep(q.table, q.size, 1, []);
    OneLink(q.table.desc, Heads(q.table, q.size, 1), seg);
  }

  lemma OneLink(desc: seq<Desc>, idx: seq<nat>, seg: Seg)
    requires |idx| == 1 && idx[0] < |desc|
    ensures LinkUpTo(desc, idx, [seg], 1) == desc[idx[0] := Desc(seg.pa, seg.len, seg.flags, 0)]
  {
    assert LinkUpTo(desc, idx, [seg], 1) == LinkUpTo(desc, idx, [seg], 0)[idx[0] := Link(idx, [seg], 0)];
  }

  /** The descriptors of a chain: each but the last leads on, by flag 1 and the next index. */
  lemma LinkIs(idx: seq<nat>, segs: seq<Seg>, i: nat)
    requires i < |idx| == |segs|
    ensures var d, last := Link(idx, segs, i), i + 1 == |idx|;
      && d.addr == segs[i].pa && d.len == segs[i].len
      && d.flags == (if last then segs[i].flags else segs[i].flags | 1) && d.next == if last then 0 else idx[i + 1]
  {
  }

  /** An entry of the used ring that names no descriptor is passed over, and nothing else changes. */
  lemma StrayEntry(q: Queue)
    requires Shape(q) && q.rings.usedIdx != q.rings.lastUsed && q.rings.used[q.rings.lastUsed % q.size].id >= q.size
    ensures GetUsed(q).1 == Nothing && GetUsed(q).0.table == q.table
    ensures GetUsed(q).0.rings == q.rings.(lastUsed := (q.rings.lastUsed + 1) % 0x1_0000)
  {
  }

  lemma NextBit(f: bv16)
    ensures HasNext(f | F_NEXT) && !HasNext(f & !F_NEXT)
  {
  }

  // ---------------------------------------------------------------------
  // The device
  // ---------------------------------------------------------------------

  /** The device reads back exactly the head that was logged next. */
  lemma TakeInv(q: Queue, l: Ledger)
    requires Inv(q, l)
    ensures Wrap(l.log.seen) == q.rings.availIdx <==> l.log.seen == |l.log.avail|
    ensures l.log.seen < |l.log.avail| ==>
      && ReadAvail(q.rings, q.size, Wrap(l.log.seen)) == l.log.avail[l.log.seen]
      && Inv(q, l.(log := Take(l.log)))
  {
    QueuedFits(l.books, l.log, q.size);
    SameCount(l.log.seen, |l.log.avail|);
    if l.log.seen < |l.log.avail| {
      ModMod(l.log.seen, WRAP, q.size);
      assert Staged(Take(l.log), l.books.chains.Keys) by {
        assert l.log.stage[l.log.avail[l.log.seen]] == Queued(l.log.seen);
      }
    }
  }

  /** The device may publish any head it holds, in any order. */
  lemma PublishInv(q: Queue, l: Ledger, e: UsedElem)
    requires Inv(q, l) && e.id in l.log.stage && l.log.stage[e.id] == Taken
    ensures Inv(q.(rings := PutUsed(q.rings, q.size, e)), l.(log := Finish(l.log, e)))
  {
    CompleteFits(l.books, l.log, q.size, [e.id]);
    PutWindows(q.rings, q.size, l.log, e);
    assert Staged(Finish(l.log, e), l.books.chains.Keys);
  }

  lemma PutWindows(r: Rings, size: nat, g: Log, e: UsedElem)
    requires Windows(r, size, g) && |g.used| - g.reaped < size
    ensures Windows(PutUsed(r, size, e), size, Finish(g, e))
  {
    ModMod(|g.used|, WRAP, size);
    Bump(|g.used|);
    WindowPush(r.used, size, g.used, g.reaped, e);
  }

  // ---------------------------------------------------------------------
  // Reaping
  // ---------------------------------------------------------------------

  /** The table after the descriptors from position j of a chain have been pushed in turn. */
  ghost predicate Pushed(t: Table, t': Table, c: seq<nat>, j: nat)
    requires j < |c| && forall i :: 0 <= i < |c| ==> c[i] < |t.desc|
  {
    && |t'.desc| == |t.desc| && t'.freeHead == c[|c| - 1] && t'.numFree == t.numFree + |c| - j
    && (forall i {:trigger t'.desc[c[i]]} :: j <= i < |c| ==>
          t'.desc[c[i]].next == if i == j then t.freeHead else c[i - 1])
    && (forall d :: 0 <= d < |t.desc| && d !in c[j..] ==> t'.desc[d] == t.desc[d])
  }

  lemma {:induction false} FreeChainIs(t: Table, size: nat, c: Chain, j: nat)
    requires TableShape(t, size) && j < |c.idx| == |c.segs| && Distinct(c.idx) && Plain(c.segs)
    requires forall i :: 0 <= i < |c.idx| ==> c.idx[i] < size
    requires forall i {:trigger t.desc[c.idx[i]]} :: j <= i < |c.idx| ==> t.desc[c.idx[i]] == Link(c.idx, c.segs, i)
    requires t.numFree + |c.idx| - j < WRAP
    ensures Pushed(t, FreeChain(t, size, c.idx[j]), c.idx, j)
    decreases |c.idx| - j
  {
    var p := Push(t, c.idx[j]);
    Small(t.numFree + 1);
    assert t.desc[c.idx[j]] == Link(c.idx, c.segs, j);
    assert HasNext(t.desc[c.idx[j]].flags) == (j + 1 < |c.idx|) by { NextBit(c.segs[j].flags); }
    if j + 1 == |c.idx| {
      assert FreeChain(t, size, c.idx[j]) == p;
    } else {
      FreeChainIs(p, size, c, j + 1);
      assert FreeChain(t, size, c.idx[j]) == FreeChain(p, size, c.idx[j + 1]);
      PushedMore(t, p, FreeChain(p, size, c.idx[j + 1]), c.idx, j);
    }
  }

  lemma PushedMore(t: Table, p: Table, t': Table, c: seq<nat>, j: nat)
    requires j + 1 < |c| && Distinct(c) && forall i :: 0 <= i < |c| ==> c[i] < |t.desc|
    requires p == Push(t, c[j]) && p.numFree == t.numFree + 1 && Pushed(p, t', c, j + 1)
    ensures Pushed(t, t', c, j)
  {
    assert c[j..] == [c[j]] + c[j + 1..];
  }

  /** Reaping reports completions in the order they were published, and each once. */
  lemma ReapInv(q: Queue, l: Ledger)
    requires Inv(q, l)
    ensures Shape(q)
    ensures l.log.reaped == |l.log.used| ==> GetUsed(q) == (q, Nothing)
    ensures l.log.reaped < |l.log.used| ==>
      && l.log.used[l.log.reaped].id in l.books.chains
      && GetUsed(q).1 == Done(l.log.used[l.log.reaped])
      && Inv(GetUsed(q).0, Settle(l))
  {
    CompleteFits(l.books, l.log, q.size, []);
    SameCount(l.log.reaped, |l.log.used|);
    if l.log.reaped < |l.log.used| {
      var h := l.log.used[l.log.reaped].id;
      ModMod(l.log.reaped, WRAP, q.size);
      Bump(l.log.reaped);
      assert Holds(l.books, h);
      SettleRecorded(q.table, q.size, l.books, h);
      UnbookPartition(l.books, q.size, h);
      SettleStaged(l);
    }
  }

  lemma SettleStaged(l: Ledger)
    requires Staged(l.log, l.books.chains.Keys) && l.log.reaped < |l.log.used|
    ensures l.log.used[l.log.reaped].id in l.books.chains
    ensures Staged(Settle(l).log, Settle(l).books.chains.Keys)
  {
    assert l.log.stage[l.log.used[l.log.reaped].id] == Complete(l.log.reaped);
  }

  lemma UnbookPartition(b: Books, size: nat, h: nat)
    requires Partition(b, size) && h in b.chains && Distinct(b.chains[h].idx)
    ensures Partition(Unbook(b, h), size)
  {
    var b', c := Unbook(b, h), b.chains[h].idx;
    assert Holds(b, h);
    forall g | g in b'.chains ensures Holds(b', g) { assert Holds(b, g); }
    forall d | 0 <= d < size ensures Placed(b', d) {
      assert Placed(b, d);
      if d in c {
        var i :| 0 <= i < |c| && c[i] == d;
        assert Reversed(c)[|c| - 1 - i] == d;
      }
    }
    forall i, j | 0 <= i < j < |b'.free| ensures b'.free[i] != b'.free[j] {
      if i < |c| <= j { assert b.owner[b'.free[i]] == Chained(h) && b.owner[b.free[j - |c|]] == Free; }
    }
  }

  lemma SettleRecorded(t: Table, size: nat, b: Books, h: nat)
    requires Recorded(t, size, b) && Partition(b, size) && h in b.chains
    ensures Recorded(FreeChain(t, size, h), size, Unbook(b, h))
  {
    var c, t' := b.chains[h], FreeChain(t, size, h);
    assert Holds(b, h) && InTable(t.desc, size, c);
    FreeAndChainFit(b, size, h);
    FreeChainIs(t, size, c, 0);
    assert c.idx[0..] == c.idx;
    forall i | 0 <= i < |b.free| ensures b.free[i] !in c.idx { assert b.owner[b.free[i]] == Free; }
    SettleFree(t, t', size, b.free, c.idx);
    SettleChains(t.desc, t'.desc, size, b, h);
  }

  lemma SettleChains(desc: seq<Desc>, desc': seq<Desc>, size: nat, b: Books, h: nat)
    requires size <= |desc| == |desc'| && Partition(b, size) && h in b.chains
    requires forall g :: g in b.chains ==> InTable(desc, size, b.chains[g])
    requires forall d :: 0 <= d < |desc| && d !in b.chains[h].idx ==> desc'[d] == desc[d]
    ensures forall g :: g in b.chains && g != h ==> InTable(desc', size, b.chains[g])
  {
    assert Holds(b, h);
    forall g | g in b.chains && g != h ensures InTable(desc', size, b.chains[g]) {
      var c := b.chains[g];
      forall i | 0 <= i < |c.idx| ensures desc'[c.idx[i]] == desc[c.idx[i]] {
        assert Holds(b, g) && b.owner[c.idx[i]] == Chained(g);
      }
    }
  }

  lemma FreeAndChainFit(b: Books, size: nat, h: nat)
    requires Partition(b, size) && h in b.chains && Distinct(b.chains[h].idx)
    ensures |b.free| + |b.chains[h].idx| <= size
  {
    assert Holds(b, h);
    DistinctBelow(b.free + b.chains[h].idx, size);
  }

  lemma SettleFree(t: Table, t': Table, size: nat, free: seq<nat>, c: seq<nat>)
    requires Threaded(t, size, free) && |t.desc| == |t'.desc| && c != [] && Distinct(c)
    requires forall i :: 0 <= i < |c| ==> c[i] < size && c[i] !in free
    requires t'.freeHead == c[|c| - 1]
    requires forall i {:trigger t'.desc[c[i]]} :: 0 <= i < |c| ==>
      t'.desc[c[i]].next == if i == 0 then t.freeHead else c[i - 1]
    requires forall d :: 0 <= d < |t.desc| && d !in c ==> t'.desc[d] == t.desc[d]
    ensures Threaded(t', size, Reversed(c) + free)
  {
    var list := Reversed(c) + free;
    SettleMembers(size, free, c);
    forall i | 0 <= i < |list|
      ensures t'.desc[list[i]].next == if i + 1 < |list| then list[i + 1] else NO_DESC
    {
      SettleNext(t, t', size, free, c, i);
    }
  }

  lemma SettleMembers(size: nat, free: seq<nat>, c: seq<nat>)
    requires c != [] && Distinct(c) && Distinct(free) && forall i :: 0 <= i < |free| ==> free[i] < size
    requires forall i :: 0 <= i < |c| ==> c[i] < size && c[i] !in free
    ensures var list := Reversed(c) + free;
      list[0] == c[|c| - 1] && Distinct(list) && forall i :: 0 <= i < |list| ==> list[i] < size
  {
    forall i | 0 <= i < |c| ensures Reversed(c)[i] == c[|c| - 1 - i] && Reversed(c)[i] in c {}
    DistinctConcat(Reversed(c), free);
  }

  lemma SettleNext(t: Table, t': Table, size: nat, free: seq<nat>, c: seq<nat>, i: nat)
    requires Threaded(t, size, free) && |t.desc| == |t'.desc| && c != [] && i < |c| + |free|
    requires forall i :: 0 <= i < |c| ==> c[i] < size && c[i] !in free
    requires forall i {:trigger t'.desc[c[i]]} :: 0 <= i < |c| ==>
      t'.desc[c[i]].next == if i == 0 then t.freeHead else c[i - 1]
    requires forall d :: 0 <= d < |t.desc| && d !in c ==> t'.desc[d] == t.desc[d]
    ensures var list := Reversed(c) + free;
      list[i] < |t'.desc| && t'.desc[list[i]].next == if i + 1 < |list| then list[i + 1] else NO_DESC
  {
    var list := Reversed(c) + free;
    if i < |c| - 1 {
      assert list[i] == c[|c| - 1 - i] && list[i + 1] == c[|c| - 2 - i];
    } else if i == |c| - 1 {
      assert list[i] == c[0];
      assert free != [] ==> list[i + 1] == free[0];
    } else {
      var k := i - |c|;
      assert list[i] == free[k] && free[k] in free && free[k] !in c;
      assert t.desc[free[k]].next == if k + 1 < |free| then free[k + 1] else NO_DESC;
    }
  }

  // ---------------------------------------------------------------------
  // Whole runs of driver and device
  // ---------------------------------------------------------------------

  /** The shared memory, the device's own 16-bit cursor and the heads it has fetched. */
  datatype Machine = Machine(q: Queue, cursor: nat, held: set<nat>)

  datatype Step =
    | SubmitOne(pa: nat, len: nat, flags: bv16)
    | SubmitMany(segs: seq<Seg>)
    | Fetch
    | Publish(elem: UsedElem)
    | Reap

  datatype Outcome = Handle(head: nat) | Full | Fetched(head: nat) | Published | Returned(elem: UsedElem) | Idle | Stuck

  ghost predicate Legal(step: Step) {
    step.SubmitMany? ==> Plain(step.segs)
  }

  function Answer(head: nat): (o: Outcome) {
    if head == NO_DESC then Full else Handle(head)
  }

  ghost function Fetching(m: Machine): (r: (Machine, Outcome))
    requires Shape(m.q)
  {
    if m.cursor == m.q.rings.availIdx then (m, Idle) else
      var head := ReadAvail(m.q.rings, m.q.size, m.cursor);
      (m.(cursor := Wrap(m.cursor + 1), held := m.held + {head}), Fetched(head))
  }

  ghost function Publishing(m: Machine, e: UsedElem): (r: (Machine, Outcome))
    requires Shape(m.q)
  {
    if e.id !in m.held then (m, Idle) else
      (m.(q := m.q.(rings := PutUsed(m.q.rings, m.q.size, e)), held := m.held - {e.id}), Published)
  }

  ghost function Reaping(m: Machine): (r: (Machine, Outcome))
    requires Shape(m.q)
  {
    var r := GetUsed(m.q);
    (m.(q := r.0), if r.1.Done? then Returned(r.1.elem) else Idle)
  }

  /** One step on the memory; Stuck if the free list were ever broken. */
  ghost function Act(m: Machine, step: Step): (r: (Machine, Outcome)) {
    if !Shape(m.q) || !Backed(m.q.table, m.q.size) then (m, Stuck)
    else match step
      case SubmitOne(pa, len, flags) =>
        var r := Submit(m.q, pa, len, flags);
        (m.(q := r.0), Answer(r.1))
      case SubmitMany(segs) =>
        var r := SubmitChain(m.q, segs);
        (m.(q := r.0), Answer(r.1))
      case Fetch => Fetching(m)
      case Publish(e) => Publishing(m, e)
      case Reap => Reaping(m)
  }

  ghost function EnterFetch(l: Ledger): (r: (Ledger, Outcome)) {
    if l.log.seen >= |l.log.avail| then (l, Idle)
    else (l.(log := Take(l.log)), Fetched(l.log.avail[l.log.seen]))
  }

  ghost function EnterPublish(l: Ledger, e: UsedElem): (r: (Ledger, Outcome)) {
    if e.id in l.log.stage && l.log.stage[e.id] == Taken then (l.(log := Finish(l.log, e)), Published)
    else (l, Idle)
  }

  ghost function EnterReap(l: Ledger): (r: (Ledger, Outcome)) {
    if l.log.reaped < |l.log.used| && l.log.used[l.log.reaped].id in l.books.chains
    then (Settle(l), Returned(l.log.used[l.log.reaped])) else (l, Idle)
  }

  /** The same step on the ledger. */
  ghost function Enter(l: Ledger, step: Step): (r: (Ledger, Outcome)) {
    match step
    case SubmitOne(pa, len, flags) => EnterChain(l, [Seg(pa, len, flags & !F_NEXT)])
    case SubmitMany(segs) => EnterChain(l, segs)
    case Fetch => EnterFetch(l)
    case Publish(e) => EnterPublish(l, e)
    case Reap => EnterReap(l)
  }

  ghost function EnterChain(l: Ledger, segs: seq<Seg>): (r: (Ledger, Outcome)) {
    if 0 < |segs| <= |l.books.free| then (Book(l, segs), Handle(l.books.free[0])) else (l, Full)
  }

  ghost function Run(m: Machine, steps: seq<Step>): (r: (Machine, seq<Outcome>))
    decreases |steps|
  {
    if steps == [] then (m, []) else
      var a := Act(m, steps[0]);
      var rest := Run(a.0, steps[1..]);
      (rest.0, [a.1] + rest.1)
  }

  ghost function Post(l: Ledger, steps: seq<Step>): (r: (Ledger, seq<Outcome>))
    decreases |steps|
  {
    if steps == [] then (l, []) else
      var a := Enter(l, steps[0]);
      var rest := Post(a.0, steps[1..]);
      (rest.0, [a.1] + rest.1)
  }

  ghost predicate HeldAre(held: set<nat>, stage: map<nat, Stage>) {
    forall h :: h in held <==> h in stage && stage[h] == Taken
  }

  ghost predicate Agrees(m: Machine, l: Ledger) {
    && Inv(m.q, l)
    && m.cursor == Wrap(l.log.seen)
    && HeldAre(m.held, l.log.stage)
  }

  /** Memory and ledger answer every step alike and stay in agreement. */
  lemma StepAgrees(m: Machine, l: Ledger, step: Step)
    requires Agrees(m, l) && Legal(step)
    ensures Act(m, step).1 == Enter(l, step).1 != Stuck
    ensures Agrees(Act(m, step).0, Enter(l, step).0)
  {
    InvBacked(m.q, l);
    match step
    case SubmitOne(pa, len, flags) =>
      var segs := [Seg(pa, len, flags & !F_NEXT)];
      OneIsMany(m, l, pa, len, flags, segs);
      ChainAgrees(m, l, segs);
    case SubmitMany(segs) => ChainAgrees(m, l, segs);
    case Fetch => FetchAgrees(m, l);
    case Publish(e) => PublishAgrees(m, l, e);
    case Reap => ReapAgrees(m, l);
  }

  lemma OneIsMany(m: Machine, l: Ledger, pa: nat, len: nat, flags: bv16, segs: seq<Seg>)
    requires Inv(m.q, l) && segs == [Seg(pa, len, flags & !F_NEXT)]
    ensures Plain(segs)
    ensures Act(m, SubmitOne(pa, len, flags)) == Act(m, SubmitMany(segs))
    ensures Enter(l, SubmitOne(pa, len, flags)) == Enter(l, SubmitMany(segs))
  {
    SubmitIsChain(m.q, l, pa, len, flags);
  }

  lemma ChainAgrees(m: Machine, l: Ledger, segs: seq<Seg>)
    requires Agrees(m, l) && Plain(segs)
    ensures var s := SubmitMany(segs);
      Act(m, s).1 == Enter(l, s).1 != Stuck && Agrees(Act(m, s).0, Enter(l, s).0)
  {
    SubmitChainInv(m.q, l, segs);
    if 0 < |segs| <= |l.books.free| { FreeHeadIsNew(l, m.q.size); }
  }

  lemma FreeHeadIsNew(l: Ledger, size: nat)
    requires Partition(l.books, size) && Staged(l.log, l.books.chains.Keys) && l.books.free != []
    ensures l.books.free[0] < size && l.books.free[0] !in l.log.stage
  {
    var b := l.books;
    assert b.owner[b.free[0]] == Free;
    assert forall h :: h in b.chains ==> Holds(b, h) && b.owner[h] == Chained(h);
  }

  lemma FetchAgrees(m: Machine, l: Ledger)
    requires Agrees(m, l) && Shape(m.q)
    ensures Fetching(m).1 == EnterFetch(l).1 && Agrees(Fetching(m).0, EnterFetch(l).0)
  {
    TakeInv(m.q, l);
    if l.log.seen < |l.log.avail| { TakeAgrees(m, l, Take(l.log), m.held + {l.log.avail[l.log.seen]}); }
  }

  lemma TakeAgrees(m: Machine, l: Ledger, log: Log, held: set<nat>)
    requires Agrees(m, l) && l.log.seen < |l.log.avail| && Inv(m.q, l.(log := log))
    requires log == Take(l.log) && held == m.held + {l.log.avail[l.log.seen]}
    ensures Agrees(m.(cursor := Wrap(m.cursor + 1), held := held), l.(log := log))
  {
    Bump(l.log.seen);
    HeldMore(m.held, l.log);
  }

  lemma HeldMore(held: set<nat>, g: Log)
    requires HeldAre(held, g.stage) && g.seen < |g.avail|
    ensures HeldAre(held + {g.avail[g.seen]}, Take(g).stage)
  {
  }

  lemma PublishAgrees(m: Machine, l: Ledger, e: UsedElem)
    requires Agrees(m, l) && Shape(m.q)
    ensures Publishing(m, e).1 == EnterPublish(l, e).1 && Agrees(Publishing(m, e).0, EnterPublish(l, e).0)
  {
    if e.id in m.held { PublishInv(m.q, l, e); }
  }

  lemma ReapAgrees(m: Machine, l: Ledger)
    requires Agrees(m, l) && Shape(m.q)
    ensures Reaping(m).1 == EnterReap(l).1 && Agrees(Reaping(m).0, EnterReap(l).0)
  {
    ReapInv(m.q, l);
    if l.log.reaped < |l.log.used| {
      assert l.log.stage[l.log.used[l.log.reaped].id] == Complete(l.log.reaped);
      assert HeldAre(m.held, Settle(l).log.stage);
    }
  }

  /**
   The memory's 16-bit counters, rings and threaded list behave for ever as the
   ledger's unbounded logs and plain lists: same answers, whatever the interleaving.
   */
  lemma {:induction false} RunAgrees(m: Machine, l: Ledger, steps: seq<Step>)
    requires Agrees(m, l) && forall i :: 0 <= i < |steps| ==> Legal(steps[i])
    ensures Run(m, steps).1 == Post(l, steps).1
    ensures Agrees(Run(m, steps).0, Post(l, steps).0)
    ensures Stuck !in Run(m, steps).1
    decreases |steps|
  {
    if steps != [] {
      StepAgrees(m, l, steps[0]);
      RunAgrees(Act(m, steps[0]).0, Enter(l, steps[0]).0, steps[1..]);
    }
  }

  /** A queue just set up agrees with an empty ledger. */
  lemma SetupAgrees(was: seq<Desc>, size: nat)
    requires |was| == MAX_SIZE && 0 < size <= MAX_SIZE && WRAP % size == 0
    ensures Agrees(Machine(Setup(was, size), 0, {}), Open(size))
  {
    var q, l := Setup(was, size), Open(size);
    assert Threaded(q.table, size, l.books.free);
    forall d | 0 <= d < size ensures Placed(l.books, d) { assert l.books.free[d] == d; }
  }

  /**
   The main theorem, for every interleaving from set-up on: the answers are the
   ledger's, each descriptor is free or in exactly one outstanding chain, every
   outstanding chain still holds the segments it was submitted with, and when all
   is reaped the whole table is free again.
   */
  lemma EveryRun(was: seq<Desc>, size: nat, steps: seq<Step>)
    requires |was| == MAX_SIZE && 0 < size <= MAX_SIZE && WRAP % size == 0
    requires forall i :: 0 <= i < |steps| ==> Legal(steps[i])
    ensures var r, p := Run(Machine(Setup(was, size), 0, {}), steps), Post(Open(size), steps);
      var t, b := r.0.q.table, p.0.books;
      && r.0.q.size == size && r.1 == p.1 && Stuck !in r.1
      && Partition(b, size)
      && Recorded(t, size, b)
      && (b.chains == map[] ==> t.numFree == size)
  {
    SetupAgrees(was, size);
    RunAgrees(Machine(Setup(was, size), 0, {}), Open(size), steps);
    var r, p := Run(Machine(Setup(was, size), 0, {}), steps), Post(Open(size), steps);
    SizeKept(Machine(Setup(was, size), 0, {}), steps);
    if p.0.books.chains == map[] { AllFree(p.0.books, size); }
  }

  lemma {:induction false} SizeKept(m: Machine, steps: seq<Step>)
    ensures Run(m, steps).0.q.size == m.q.size
    decreases |steps|
  {
    if steps != [] { SizeKept(Act(m, steps[0]).0, steps[1..]); }
  }

  lemma AllFree(b: Books, size: nat)
    requires Partition(b, size) && b.chains == map[]
    ensures |b.free| == size
  {
    forall d | 0 <= d < size ensures d in b.free { assert Placed(b, d); }
    DistinctBelow(b.free, size);
    DistinctWithin(seq(size, i => i), Members(b.free));
    SetWithin(b.free);
  }

  /** No submission hands out a descriptor of a chain that is still outstanding. */
  lemma NoLiveReuse(m: Machine, l: Ledger, n: nat, h: nat)
    requires Agrees(m, l) && n <= m.q.table.numFree && h in l.books.chains
    ensures Backed(m.q.table, m.q.size)
    ensures forall i :: 0 <= i < n ==> Heads(m.q.table, m.q.size, n)[i] !in l.books.chains[h].idx
  {
    InvBacked(m.q, l);
    HeadsAre(m.q.table, m.q.size, l.books.free, n);
    assert Holds(l.books, h);
    forall i | 0 <= i < n ensures l.books.free[i] !in l.books.chains[h].idx {
      assert l.books.owner[l.books.free[i]] == Free;
    }
  }

  // ---------------------------------------------------------------------
  // Ring slots
  // ---------------------------------------------------------------------

  /** 16-bit counters agree with unbounded ones on every slot exactly when the size divides the wrap. */
  lemma WrapAgreesIff(size: nat)
    requires size > 0
    ensures (forall n: nat :: Wrap(n) % size == n % size) <==> WRAP % size == 0
  {
    if WRAP % size == 0 {
      forall n: nat ensures Wrap(n) % size == n % size { ModMod(n, WRAP, size); }
    } else {
      assert Wrap(WRAP) % size == 0;
    }
  }

  /** The first of the last `size` of n submissions. */
  function Oldest(n: nat, size: nat): (k: nat) { if n > size then n - size else 0 }

  /** An outstanding chain was logged where it says, and its head has not been offered again. */
  ghost predicate Posted(l: Ledger, h: nat)
    requires h in l.books.chains
  {
    var pos := l.books.chains[h].pos;
    pos < |l.log.avail| && l.log.avail[pos] == h && forall k :: pos < k < |l.log.avail| ==> l.log.avail[k] != h
  }

  /** The available ring holds the last `size` submissions, fetched or not. */
  ghost predicate Trailing(q: Queue, l: Ledger) {
    && Window(q.rings.avail, q.size, l.log.avail, Oldest(|l.log.avail|, q.size))
    && forall h :: h in l.books.chains ==> Posted(l, h)
  }

  lemma TrailingChain(m: Machine, l: Ledger, segs: seq<Seg>)
    requires Agrees(m, l) && Trailing(m.q, l) && Plain(segs)
    ensures Trailing(Act(m, SubmitMany(segs)).0.q, Enter(l, SubmitMany(segs)).0)
  {
    SubmitChainInv(m.q, l, segs);
    if 0 < |segs| <= |l.books.free| {
      FreeHeadIsNew(l, m.q.size);
      TrailingOffer(m.q, l, l.books.free[0]);
      TrailingBook(l, segs);
      SubmitChainIs(m.q, l, segs);
    }
  }

  lemma TrailingOffer(q: Queue, l: Ledger, head: nat)
    requires Inv(q, l) && Trailing(q, l)
    ensures var avail := l.log.avail + [head];
      Window(Offer(q.rings, q.size, head).avail, q.size, avail, Oldest(|avail|, q.size))
  {
    var n := |l.log.avail|;
    ModMod(n, WRAP, q.size);
    WindowPush(q.rings.avail, q.size, l.log.avail, Oldest(n + 1, q.size), head);
  }

  lemma TrailingBook(l: Ledger, segs: seq<Seg>)
    requires 0 < |segs| <= |l.books.free| && forall h :: h in l.books.chains ==> Posted(l, h)
    ensures var l' := Book(l, segs); forall h :: h in l'.books.chains ==> Posted(l', h)
  {
    var l' := Book(l, segs);
    forall h | h in l'.books.chains ensures Posted(l', h) {
      if h != l.books.free[0] { assert Posted(l, h); }
    }
  }

  lemma TrailingStep(m: Machine, l: Ledger, step: Step)
    requires Agrees(m, l) && Trailing(m.q, l) && Legal(step)
    ensures Trailing(Act(m, step).0.q, Enter(l, step).0)
  {
    InvBacked(m.q, l);
    match step
    case SubmitOne(pa, len, flags) =>
      var segs := [Seg(pa, len, flags & !F_NEXT)];
      OneIsMany(m, l, pa, len, flags, segs);
      TrailingChain(m, l, segs);
    case SubmitMany(segs) => TrailingChain(m, l, segs);
    case _ =>
      RingKept(m, step);
      ChainsKept(l, step);
      TrailingSame(m.q, Act(m, step).0.q, l, Enter(l, step).0);
  }

  /** Only a submission writes the available ring. */
  lemma RingKept(m: Machine, step: Step)
    requires !step.SubmitOne? && !step.SubmitMany?
    ensures Act(m, step).0.q.rings.avail == m.q.rings.avail && Act(m, step).0.q.size == m.q.size
  {
  }

  lemma ChainsKept(l: Ledger, step: Step)
    requires !step.SubmitOne? && !step.SubmitMany?
    ensures var l' := Enter(l, step).0;
      && l'.log.avail == l.log.avail
      && forall h :: h in l'.books.chains ==> h in l.books.chains && l'.books.chains[h] == l.books.chains[h]
  {
  }

  lemma TrailingSame(q: Queue, q': Queue, l: Ledger, l': Ledger)
    requires Trailing(q, l) && q'.rings.avail == q.rings.avail && q'.size == q.size && l'.log.avail == l.log.avail
    requires forall h :: h in l'.books.chains ==> h in l.books.chains && l'.books.chains[h] == l.books.chains[h]
    ensures Trailing(q', l')
  {
    forall h | h in l'.books.chains ensures Posted(l', h) { assert Posted(l, h); }
  }

  lemma {:induction false} TrailingRun(m: Machine, l: Ledger, steps: seq<Step>)
    requires Agrees(m, l) && Trailing(m.q, l) && forall i :: 0 <= i < |steps| ==> Legal(steps[i])
    ensures Trailing(Run(m, steps).0.q, Post(l, steps).0)
    decreases |steps|
  {
    if steps != [] {
      StepAgrees(m, l, steps[0]);
      TrailingStep(m, l, steps[0]);
      TrailingRun(Act(m, steps[0]).0, Enter(l, steps[0]).0, steps[1..]);
    }
  }

  /**
   After any run from set-up, the slot an outstanding chain was offered in holds something
   else exactly when more than `size` submissions have been made from it on. The slots of
   chains the device has not fetched are never touched (`Windows`); the slots of fetched
   ones may be.
   */
  lemma SlotReusedIff(was: seq<Desc>, size: nat, steps: seq<Step>, h: nat)
    requires |was| == MAX_SIZE && 0 < size <= MAX_SIZE && WRAP % size == 0
    requires forall i :: 0 <= i < |steps| ==> Legal(steps[i])
    requires h in Post(Open(size), steps).0.books.chains
    ensures var ring, l := Run(Machine(Setup(was, size), 0, {}), steps).0.q.rings.avail, Post(Open(size), steps).0;
      var pos := l.books.chains[h].pos;
      size <= |ring| && (ring[pos % size] != h <==> |l.log.avail| - pos > size)
  {
    var m0, l0 := Machine(Setup(was, size), 0, {}), Open(size);
    SetupAgrees(was, size);
    TrailingRun(m0, l0, steps);
    SizeKept(m0, steps);
    SlotHolds(Run(m0, steps).0.q, Post(l0, steps).0, h);
  }

  lemma SlotHolds(q: Queue, l: Ledger, h: nat)
    requires Trailing(q, l) && h in l.books.chains
    ensures var pos := l.books.chains[h].pos; q.rings.avail[pos % q.size] != h <==> |l.log.avail| - pos > q.size
  {
    var pos, n, size := l.books.chains[h].pos, |l.log.avail|, q.size;
    assert Posted(l, h);
    if n - pos > size {
      var k := Latest(pos, n, size);
      assert q.rings.avail[k % size] == l.log.avail[k];
    }
  }

  /** Among the last `size` submissions one went to the same slot. */
  lemma Latest(pos: nat, n: nat, size: nat) returns (k: nat)
    requires size > 0 && n - pos > size
    ensures pos < k < n && Oldest(n, size) <= k && k % size == pos % size
  {
    var j := (n - 1 - pos) / size;
    AddMultiple(pos, j, size);
    k := pos + j * size;
    DivBounds(n - 1 - pos, size, j);
  }

  lemma DivBounds(a: nat, m: nat, j: nat)
    requires m > 0 && j == a / m
    ensures a - m < j * m <= a && (a >= m ==> j * m > 0)
  {
    assert a == m * (a / m) + a % m;
  }

  /** It does happen: with two descriptors and out-of-order completion, seven steps reuse a live slot. */
  lemma SlotReuseHappens(was: seq<Desc>, s: Seg)
    requires |was| == MAX_SIZE && !HasNext(s.flags)
    ensures var steps :=
      [SubmitMany([s]), Fetch, SubmitMany([s]), Fetch, Publish(UsedElem(1, 0)), Reap, SubmitMany([s])];
      var ring := Run(Machine(Setup(was, 2), 0, {}), steps).0.q.rings.avail;
      0 in Post(Open(2), steps).0.books.chains && |ring| >= 2 && ring[0] != 0
  {
    var steps := [SubmitMany([s]), Fetch, SubmitMany([s]), Fetch, Publish(UsedElem(1, 0)), Reap, SubmitMany([s])];
    var l := ReuseLedger(s, steps);
    assert Plain([s]);
    SlotReusedIff(was, 2, steps, 0);
  }

  lemma ReuseLedger(s: Seg, steps: seq<Step>) returns (l: Ledger)
    requires steps == [SubmitMany([s]), Fetch, SubmitMany([s]), Fetch, Publish(UsedElem(1, 0)), Reap, SubmitMany([s])]
    ensures l == Post(Open(2), steps).0 && 0 in l.books.chains && l.books.chains[0].pos == 0 && |l.log.avail| == 3
  {
    var l0 := Open(2);
    var l1 := Enter(l0, steps[0]).0;
    var l2 := Enter(l1, steps[1]).0;
    var l3 := Enter(l2, steps[2]).0;
    ReuseHead(s);
    ReuseTail(l3, s);
    var l4 := Enter(l3, steps[3]).0;
    var l5 := Enter(l4, steps[4]).0;
    var l6 := Enter(l5, steps[5]).0;
    l := Enter(l6, steps[6]).0;
    PostIs(l0, steps, [l0, l1, l2, l3, l4, l5, l6, l]);
  }

  lemma ReuseHead(s: Seg)
    ensures var l := Enter(Enter(Enter(Open(2), SubmitMany([s])).0, Fetch).0, SubmitMany([s])).0;
      && l.books.free == [] && l.books.chains.Keys == {0, 1}
      && l.books.chains[0].pos == 0 && l.books.chains[1].idx == [1]
      && l.log.avail == [0, 1] && l.log.seen == 1 && l.log.used == [] && l.log.reaped == 0
  {
    var l1 := Enter(Open(2), SubmitMany([s])).0;
    assert l1.books.free == [1] && l1.log.avail == [0] && l1.books.chains[0].pos == 0;
    var l2 := Enter(l1, Fetch).0;
    assert l2.books == l1.books && l2.log.avail == [0] && l2.log.seen == 1;
  }

  lemma ReuseTail(l: Ledger, s: Seg)
    requires l.books.free == [] && l.books.chains.Keys == {0, 1} && l.books.chains[0].pos == 0
    requires l.books.chains[1].idx == [1]
    requires l.log.avail == [0, 1] && l.log.seen == 1 && l.log.used == [] && l.log.reaped == 0
    ensures var l' := Enter(Enter(Enter(Enter(l, Fetch).0, Publish(UsedElem(1, 0))).0, Reap).0, SubmitMany([s])).0;
      |l'.log.avail| == 3 && 0 in l'.books.chains && l'.books.chains[0].pos == 0
  {
    var l2 := Enter(Enter(l, Fetch).0, Publish(UsedElem(1, 0))).0;
    assert l2.log.used == [UsedElem(1, 0)];
    assert Enter(l2, Reap).0.books.free == [1];
  }

  /** A ledger run through listed states ends in the last of them. */
  lemma {:induction false} PostIs(l: Ledger, steps: seq<Step>, states: seq<Ledger>)
    requires |states| == |steps| + 1 && states[0] == l
    requires forall i :: 0 <= i < |steps| ==> states[i + 1] == Enter(states[i], steps[i]).0
    ensures Post(l, steps).0 == states[|steps|]
    decreases |steps|
  {
    if steps != [] { PostIs(states[1], steps[1..], states[1..]); }
  }
}
