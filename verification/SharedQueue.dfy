/** The virtqueue driver as it runs: the same operations, updating the shared arrays in place. */
module SharedQueue {
  import opened Virtqueue

  class Driver {
    var size: nat
    var freeHead: nat
    var numFree: nat
    var lastUsed: nat
    const desc: array<Desc>
    var availIdx: nat
    const avail: array<nat>
    var usedIdx: nat
    const used: array<UsedElem>

    ghost predicate Valid() {
      desc.Length == avail.Length == used.Length == MAX_SIZE
    }

    /** The queue these fields and arrays make up. */
    ghost function View(): (q: Queue)
      reads this, desc, avail, used
    {
      Queue(size, Table(desc[..], freeHead, numFree), Rings(availIdx, avail[..], usedIdx, used[..], lastUsed))
    }

    constructor ()
      ensures Valid() && fresh(desc) && fresh(avail) && fresh(used)
    {
      size, freeHead, numFree, lastUsed, availIdx, usedIdx := 0, NO_DESC, 0, 0, 0, 0;
      desc := new Desc[MAX_SIZE](_ => Desc(0, 0, 0, 0));
      avail := new nat[MAX_SIZE](_ => 0);
      used := new UsedElem[MAX_SIZE](_ => UsedElem(0, 0));
    }

    /** Negotiate a size, clear the rings and thread every descriptor onto the free list. */
    method Setup(maxSize: nat) returns (ok: bool)
      requires Valid()
      modifies this, desc, avail, used
      ensures ok == (maxSize > 0)
      ensures !ok ==> View() == old(View())
      ensures ok ==> View() == Virtqueue.Setup(old(desc[..]), if MAX_SIZE > maxSize then maxSize else MAX_SIZE)
    {
      if maxSize == 0 {
        return false;
      }
      var qsize := MAX_SIZE;
      if qsize > maxSize {
        qsize := maxSize;
      }
      ghost var was := desc[..];
      for i := 0 to qsize
        modifies desc
        invariant forall k :: 0 <= k < i ==> desc[k] == Desc(0, 0, 0, 0)
        invariant forall k :: i <= k < MAX_SIZE ==> desc[k] == was[k]
      {
        desc[i] := Desc(0, 0, 0, 0);
      }
      for i := 0 to MAX_SIZE
        modifies avail, used
        invariant forall k :: 0 <= k < i ==> avail[k] == 0 && used[k] == UsedElem(0, 0)
      {
        avail[i], used[i] := 0, UsedElem(0, 0);
      }
      availIdx, usedIdx := 0, 0;
      size, lastUsed := qsize, 0;
      InitFreeList(was);
      ok := true;
    }

    method InitFreeList(ghost was: seq<Desc>)
      requires Valid() && size <= MAX_SIZE == |was|
      requires forall k :: 0 <= k < MAX_SIZE ==> desc[k] == if k < size then Desc(0, 0, 0, 0) else was[k]
      modifies this`freeHead, this`numFree, desc
      ensures desc[..] == Virtqueue.Setup(was, size).table.desc
      ensures freeHead == (if size > 0 then 0 else NO_DESC) && numFree == size
    {
      for i := 0 to size
        modifies desc
        invariant forall k :: 0 <= k < i ==> desc[k] == Desc(0, 0, 0, if k + 1 < size then k + 1 else NO_DESC)
        invariant forall k :: i <= k < size ==> desc[k] == Desc(0, 0, 0, 0)
        invariant forall k :: size <= k < MAX_SIZE ==> desc[k] == was[k]
      {
        desc[i] := desc[i].(next := if i + 1 < size then i + 1 else NO_DESC);
      }
      freeHead := if size > 0 then 0 else NO_DESC;
      numFree := size;
    }

    method AllocDesc() returns (idx: nat)
      requires Valid() && (freeHead == NO_DESC || freeHead < MAX_SIZE)
      modifies this`freeHead, this`numFree
      ensures idx == old(freeHead)
      ensures View().table == if idx == NO_DESC then old(View().table) else Alloc(old(View().table))
    {
      idx := freeHead;
      if idx == NO_DESC {
        return NO_DESC;
      }
      freeHead := desc[idx].next;
      numFree := Wrap(numFree + WRAP - 1);
    }

    /** Walk the chain's links, pushing each descriptor; ends on any table, broken links included. */
    method FreeChain(head: nat)
      requires Valid() && 0 < size <= MAX_SIZE
      modifies this`freeHead, this`numFree, desc
      ensures View().table == Virtqueue.FreeChain(old(View().table), size, head)
    {
      var idx: nat := head;
      ghost var goal := Virtqueue.FreeChain(View().table, size, head);
      while true
        modifies this`freeHead, this`numFree, desc
        invariant TableShape(View().table, size) && Virtqueue.FreeChain(View().table, size, idx) == goal
        decreases Continued(desc[..])
      {
        if idx >= size {
          return;
        }
        var flags, next := desc[idx].flags, desc[idx].next;
        ghost var before := View().table;
        ContinuedUpdate(desc[..], idx, Desc(0, 0, 0, freeHead));
        desc[idx] := Desc(0, 0, 0, freeHead);
        freeHead := idx;
        numFree := Wrap(numFree + 1);
        assert View().table == Push(before, idx);
        if !HasNext(flags) {
          return;
        }
        idx := next;
      }
    }

    method Publish(head: nat)
      requires Valid() && 0 < size <= MAX_SIZE
      modifies this`availIdx, avail
      ensures View().rings == Offer(old(View().rings), size, head)
    {
      avail[availIdx % size] := head;
      availIdx := Wrap(availIdx + 1);
    }

    method Submit(pa: nat, len: nat, flags: bv16) returns (idx: nat)
      requires Valid() && Shape(View()) && Backed(View().table, size)
      modifies this`freeHead, this`numFree, this`availIdx, desc, avail
      ensures (View(), idx) == Virtqueue.Submit(old(View()), pa, len, flags)
    {
      BackedHead(View().table, size);
      idx := AllocDesc();
      if idx == NO_DESC {
        return NO_DESC;
      }
      desc[idx] := Desc(pa, len, flags & !F_NEXT, 0);
      Publish(idx);
    }

    method AllocChain(n: nat) returns (idx: seq<nat>)
      requires Valid() && Backed(View().table, size) && n <= numFree
      modifies this`freeHead, this`numFree
      ensures idx == Heads(old(View().table), size, n)
      ensures View().table == AllocMany(old(View().table), size, n)
    {
      ghost var t := View().table;
      idx := [];
      for i := 0 to n
        invariant |idx| == i && Backed(View().table, size) && n - i <= numFree
        invariant idx + Heads(View().table, size, n - i) == Heads(t, size, n)
        invariant AllocMany(View().table, size, n - i) == AllocMany(t, size, n)
      {
        BackedHead(View().table, size);
        HeadsStep(View().table, size, n - i, idx);
        var d := AllocDesc();
        idx := idx + [d];
      }
    }

    method LinkChain(idx: seq<nat>, segs: seq<Seg>)
      requires |idx| == |segs| && forall k :: 0 <= k < |idx| ==> idx[k] < desc.Length
      modifies desc
      ensures desc[..] == LinkUpTo(old(desc[..]), idx, segs, |idx|)
    {
      ghost var was, n := desc[..], |idx|;
      for i := 0 to |idx|
        invariant desc[..] == LinkUpTo(was, idx, segs, i)
      {
        var flags := segs[i].flags;
        if i < |idx| - 1 {
          flags := flags | F_NEXT;
        }
        desc[idx[i]] := Desc(segs[i].pa, segs[i].len, flags, if i < |idx| - 1 then idx[i + 1] else 0);
      }
    }

    /** All or nothing: the count is checked before the first descriptor is taken. */
    method SubmitChain(segs: seq<Seg>) returns (head: nat)
      requires Valid() && Shape(View()) && Backed(View().table, size)
      modifies this`freeHead, this`numFree, this`availIdx, desc, avail
      ensures (View(), head) == Virtqueue.SubmitChain(old(View()), segs)
    {
      if |segs| == 0 || |segs| > numFree {
        return NO_DESC;
      }
      var idx := AllocChain(|segs|);
      LinkChain(idx, segs);
      head := idx[0];
      Publish(head);
    }

    method GetUsed() returns (r: Reaped)
      requires Valid() && Shape(View())
      modifies this`freeHead, this`numFree, this`lastUsed, desc
      ensures (View(), r) == Virtqueue.GetUsed(old(View()))
    {
      if usedIdx == lastUsed {
        return Nothing;
      }
      var e := used[lastUsed % size];
      lastUsed := Wrap(lastUsed + 1);
      if e.id >= size {
        return Nothing;
      }
      FreeChain(e.id);
      r := Done(e);
    }
  }
}
