/** The heap as it runs: block headers in memory linked by `next`, on pages of the page allocator. */
module KernelHeap {
  import opened Arith
  import opened Common
  import opened Links
  import opened Heap
  import opened HeapRuns
  import Pmm

  const MAGIC_ALLOC: nat := 0xA110CED
  const MAGIC_FREE: nat := 0xFEEDF1EE

  /** The fields of a header besides its link. */
  datatype Meta = Meta(size: nat, magic: nat, isFree: bool)

  function MetaOf(b: Block): (m: Meta) {
    Meta(b.size, if b.free then MAGIC_FREE else MAGIC_ALLOC, b.free)
  }

  ghost function Addrs(bs: seq<Block>): (r: seq<nat>)
    ensures |r| == |bs| && forall i :: 0 <= i < |bs| ==> r[i] == bs[i].addr
  {
    seq(|bs|, i requires 0 <= i < |bs| => bs[i].addr)
  }

  ghost predicate Says(meta: map<nat, Meta>, b: Block) { b.addr in meta && meta[b.addr] == MetaOf(b) }

  ghost predicate Starts(bs: seq<Block>, a: nat) { exists b :: b in bs && b.addr == a }

  /** There is a header for every block, saying what the block is, and for nothing else. */
  ghost predicate Labelled(meta: map<nat, Meta>, bs: seq<Block>) {
    && (forall b {:trigger Says(meta, b)} :: b in bs ==> Says(meta, b))
    && (forall a {:trigger Starts(bs, a)} :: a in meta ==> Starts(bs, a))
  }

  lemma AddrsApart(bs: seq<Block>)
    requires Apart(bs)
    ensures Distinct(Addrs(bs))
  {
    forall i, j | 0 <= i < j < |bs| ensures bs[i].addr != bs[j].addr {
      BlockAtUnique(bs, i);
      BlockAtUnique(bs, j);
    }
  }

  lemma AddrIn(bs: seq<Block>, a: nat)
    ensures a in Addrs(bs) <==> exists b :: b in bs && b.addr == a
  {
    if a in Addrs(bs) {
      var i :| 0 <= i < |bs| && Addrs(bs)[i] == a;
      assert bs[i] in bs;
    }
    if exists b :: b in bs && b.addr == a {
      var b :| b in bs && b.addr == a;
      var i :| 0 <= i < |bs| && bs[i] == b;
      assert Addrs(bs)[i] == a;
    }
  }

  lemma {:induction false} FitIs(bs: seq<Block>, n: nat, i: nat)
    requires i <= |bs| && (i < |bs| ==> Fits(bs[i], n)) && forall k :: 0 <= k < i ==> !Fits(bs[k], n)
    ensures FirstFit(bs, n) == i
  {
    if i > 0 { FitIs(bs[1..], n, i - 1); }
  }

  /** The list in memory is the list of blocks. */
  ghost predicate InMemory(meta: map<nat, Meta>, next: map<nat, int>, head: int, bs: seq<Block>) {
    Labelled(meta, bs) && List(next, head, Addrs(bs))
  }

  /** Relabelling one block in place. */
  lemma Relabel(meta: map<nat, Meta>, bs: seq<Block>, i: nat, c: Block)
    requires Labelled(meta, bs) && Distinct(Addrs(bs)) && i < |bs| && c.addr == bs[i].addr
    ensures Labelled(meta[c.addr := MetaOf(c)], bs[i := c]) && Addrs(bs[i := c]) == Addrs(bs)
  {
    var meta', r := meta[c.addr := MetaOf(c)], bs[i := c];
    forall b | b in r ensures Says(meta', b) {
      var k :| 0 <= k < |r| && r[k] == b;
      if k != i { assert bs[k] in bs && Says(meta, bs[k]) && Addrs(bs)[k] != Addrs(bs)[i]; }
    }
    forall a | a in meta' ensures Starts(r, a) {
      if a == c.addr {
        assert r[i] in r;
      } else {
        assert Starts(bs, a);
        var b :| b in bs && b.addr == a;
        var k :| 0 <= k < |bs| && bs[k] == b;
        assert r[k] in r;
      }
    }
  }

  lemma RelabelInMemory(meta: map<nat, Meta>, next: map<nat, int>, head: int, bs: seq<Block>, i: nat, c: Block)
    requires InMemory(meta, next, head, bs) && Distinct(Addrs(bs)) && i < |bs| && c.addr == bs[i].addr
    ensures InMemory(meta[c.addr := MetaOf(c)], next, head, bs[i := c])
  {
    Relabel(meta, bs, i, c);
  }

  /** Linking a new block in behind block i. */
  lemma InsertBlock(meta: map<nat, Meta>, next: map<nat, int>, head: int, bs: seq<Block>, i: nat, c: Block)
    requires InMemory(meta, next, head, bs) && Distinct(Addrs(bs)) && i < |bs|
    requires forall b :: b in bs ==> b.addr != c.addr
    ensures InMemory(meta[c.addr := MetaOf(c)], next[c.addr := Follow(next, bs[i].addr)][bs[i].addr := c.addr], head,
                     bs[..i + 1] + ([c] + bs[i + 1..]))
    ensures Distinct(Addrs(bs[..i + 1] + ([c] + bs[i + 1..])))
  {
    var r, q := bs[..i + 1] + ([c] + bs[i + 1..]), Addrs(bs);
    assert Addrs(r) == q[..i + 1] + ([c.addr] + q[i + 1..]);
    AddrIn(bs, c.addr);
    PathInsert(next, q, i + 1, c.addr);
    DistinctInsert(q, i + 1, c.addr);
    InsertLabels(meta, bs, i, c);
  }

  lemma DistinctInsert(q: seq<nat>, k: nat, a: nat)
    requires Distinct(q) && k <= |q| && a !in q
    ensures Distinct(q[..k] + ([a] + q[k..]))
  {
    DistinctConcat([a], q[k..]);
    forall x | x in q[..k] ensures x !in [a] + q[k..] {
      var i :| 0 <= i < k && q[i] == x;
      forall j | 0 <= j < |q| - k ensures q[k..][j] != x { assert q[k + j] != q[i]; }
    }
    DistinctConcat(q[..k], [a] + q[k..]);
  }

  lemma InsertLabels(meta: map<nat, Meta>, bs: seq<Block>, i: nat, c: Block)
    requires Labelled(meta, bs) && i < |bs| && forall b :: b in bs ==> b.addr != c.addr
    ensures Labelled(meta[c.addr := MetaOf(c)], bs[..i + 1] + ([c] + bs[i + 1..]))
  {
    var meta', r := meta[c.addr := MetaOf(c)], bs[..i + 1] + ([c] + bs[i + 1..]);
    assert bs == bs[..i + 1] + bs[i + 1..];
    forall b | b in r ensures Says(meta', b) {
      if b != c { assert b in bs && Says(meta, b); }
    }
    forall a | a in meta' ensures Starts(r, a) {
      if a == c.addr {
        assert c in r;
      } else {
        assert Starts(bs, a);
        var b :| b in bs && b.addr == a;
        assert b in r;
      }
    }
  }

  /** Dropping block i + 1 from the list. */
  lemma RemoveBlock(meta: map<nat, Meta>, next: map<nat, int>, head: int, bs: seq<Block>, i: nat)
    requires InMemory(meta, next, head, bs) && Distinct(Addrs(bs)) && i + 1 < |bs|
    ensures var next' := next[bs[i].addr := Follow(next, bs[i + 1].addr)];
      InMemory(meta - {bs[i + 1].addr}, next', head, bs[..i + 1] + bs[i + 2..])
  {
    var r, q := bs[..i + 1] + bs[i + 2..], Addrs(bs);
    assert Addrs(r) == q[..i + 1] + q[i + 2..];
    PathRemove(next, q, i + 1, NULL);
    RemoveLabels(meta, bs, i + 1);
  }

  lemma Others(bs: seq<Block>, k: nat)
    requires Distinct(Addrs(bs)) && k < |bs|
    ensures forall b :: b in bs[..k] + bs[k + 1..] ==> b in bs && b.addr != bs[k].addr
    ensures forall b :: b in bs ==> b == bs[k] || b in bs[..k] + bs[k + 1..]
  {
    var r := bs[..k] + bs[k + 1..];
    forall b | b in r ensures b in bs && b.addr != bs[k].addr {
      var j :| 0 <= j < |r| && r[j] == b;
      var m := if j < k then j else j + 1;
      assert r[j] == bs[m] && Addrs(bs)[m] != Addrs(bs)[k];
    }
    Around(bs, k);
  }

  lemma RemoveLabels(meta: map<nat, Meta>, bs: seq<Block>, k: nat)
    requires Labelled(meta, bs) && Distinct(Addrs(bs)) && k < |bs|
    ensures Labelled(meta - {bs[k].addr}, bs[..k] + bs[k + 1..])
  {
    var meta', r := meta - {bs[k].addr}, bs[..k] + bs[k + 1..];
    Others(bs, k);
    forall b | b in r ensures Says(meta', b) { assert Says(meta, b); }
    forall a | a in meta' ensures Starts(r, a) {
      assert Starts(bs, a);
      var b :| b in bs && b.addr == a;
      assert b in r;
    }
  }

  /** Every address of a region lies in one of the frames. */
  ghost predicate Held(rs: seq<Region>, base: nat, frames: set<nat>) {
    forall a: nat :: InRegion(rs, a) ==> base <= a && (a - base) / 4096 in frames
  }

  /** A run of pages is held by the frames of the run. */
  lemma RunHeld(base: nat, p: nat, pages: nat, rs: seq<Region>)
    requires rs == [Region(base + p * 4096, pages * 4096)]
    ensures Held(rs, base, Pmm.Run(p, pages))
  {
    forall a: nat | InRegion(rs, a) ensures base <= a && (a - base) / 4096 in Pmm.Run(p, pages) {
      FrameOf(a - base, p, pages);
    }
  }

  lemma MoreHeld(rs: seq<Region>, base: nat, frames: set<nat>, p: nat, pages: nat)
    requires Held(rs, base, frames)
    ensures Held(rs + [Region(base + p * 4096, pages * 4096)], base, frames + Pmm.Run(p, pages))
  {
    var r := Region(base + p * 4096, pages * 4096);
    RunHeld(base, p, pages, [r]);
    forall a: nat | InRegion(rs + [r], a) ensures base <= a && (a - base) / 4096 in frames + Pmm.Run(p, pages) {
      RegionConcat(rs, r, a);
      if !InRegion(rs, a) { assert [r][0] == r && InRegion([r], a); }
    }
  }

  /** Frames that were free hold no region. */
  lemma FreshPages(rs: seq<Region>, base: nat, frames: set<nat>, p: nat, pages: nat, a: nat)
    requires Held(rs, base, frames) && frames !! Pmm.Run(p, pages)
    requires base + p * 4096 <= a < base + p * 4096 + pages * 4096
    ensures !InRegion(rs, a)
  {
    FrameOf(a - base, p, pages);
    assert (a - base) / 4096 in Pmm.Run(p, pages);
  }

  lemma FrameOf(x: int, p: nat, pages: nat)
    requires p * 4096 <= x < p * 4096 + pages * 4096
    ensures p <= x / 4096 < p + pages
  {
  }

  /** Where a run of frames appears in the kernel's half of the address space. */
  lemma GrantAddr(offset: nat, start: nat, total: nat, p: nat, pages: nat)
    requires offset % 4096 == 0 && start % 4096 == 0 && 0 < start && p + pages <= total
    requires offset + start + total * 4096 < WORD
    ensures var va := offset + Pmm.FrameAddr(start, p);
      4096 <= va && va % 4096 == 0 && va + pages * 4096 < WORD && va == offset + start + p * 4096
  {
    assert offset + start + p * 4096 == 4096 * (offset / 4096 + start / 4096 + p);
    assert (p + pages) * 4096 <= total * 4096;
  }

  /** Cutting a block in two is putting the rest behind it and relabelling it. */
  lemma CutIs(bs: seq<Block>, i: nat, n: nat)
    requires i < |bs| && n <= bs[i].size
    ensures var b := bs[i];
      if b.size - n > 64 then
        var two := bs[..i + 1] + ([Block(b.addr + 32 + n, b.size - n - 32, true)] + bs[i + 1..]);
        two[i := Block(b.addr, n, false)] == Carve(bs, i, n)
      else bs[i := b.(free := false)] == Carve(bs, i, n)
  {
  }

  lemma FreshHeld(offset: nat, start: nat, total: nat, p: nat)
    requires offset % 4096 == 0 && start % 4096 == 0 && 0 < start && p + 256 <= total
    requires offset + start + total * 4096 < WORD
    ensures var s := Fresh(offset + Pmm.FrameAddr(start, p));
      Inv(s) && Held(s.regions, offset + start, Pmm.Run(p, 256))
  {
    GrantAddr(offset, start, total, p, 256);
    FreshInv(offset + Pmm.FrameAddr(start, p));
    RunHeld(offset + start, p, 256, Fresh(offset + Pmm.FrameAddr(start, p)).regions);
  }

  /** All a new heap over the pages from va on has to satisfy. */
  lemma FreshReady(offset: nat, start: nat, total: nat, p: nat, va: nat) returns (s: State)
    requires offset % 4096 == 0 && start % 4096 == 0 && 0 < start && p + 256 <= total
    requires offset + start + total * 4096 < WORD && va == offset + Pmm.FrameAddr(start, p)
    ensures s == Fresh(va) && s.regions == [Region(va, 0x10_0000)] && Inv(s)
    ensures Held(s.regions, offset + start, Pmm.Run(p, 256))
    ensures InMemory(map[va := Meta(0x10_0000 - 32, MAGIC_FREE, true)], map[va := NULL], va, s.blocks)
  {
    s := Fresh(va);
    FreshHeld(offset, start, total, p);
    FreshInMemory(va);
  }

  lemma FreshInMemory(va: nat)
    ensures InMemory(map[va := Meta(0x10_0000 - 32, MAGIC_FREE, true)], map[va := NULL], va, Fresh(va).blocks)
  {
    var b := Fresh(va).blocks[0];
    assert b in Fresh(va).blocks && b.addr == va && Addrs(Fresh(va).blocks) == [va];
  }

  /** So many free frames lie in a row. */
  ghost predicate Spare(taken: set<nat>, total: nat, pages: nat) {
    exists q: nat :: q + pages <= total && Pmm.FreeRun(taken, q, pages)
  }

  class KernelHeap {
    const pmm: Pmm.Allocator
    /** KERNEL_VA_OFFSET. */
    const offset: nat
    var meta: map<nat, Meta>
    var next: map<nat, int>
    var head: int
    var regions: seq<Region>
    ghost var blocks: seq<Block>
    ghost var frames: set<nat>

    ghost function View(): (s: State)
      reads this
    {
      State(blocks, regions)
    }

    ghost predicate Valid()
      reads this, pmm, pmm.bitmap
    {
      && pmm.Valid() && offset % 4096 == 0 && offset + pmm.start + pmm.total * 4096 < WORD
      && Sound() && frames <= pmm.taken
    }

    /** The heap's own state: the list in memory tiles the regions, and the frames hold them. */
    ghost predicate Sound()
      reads this
    {
      Inv(View()) && InMemory(meta, next, head, blocks) && Held(regions, offset + pmm.start, frames)
    }

    /** heap_init: one free block over the first pages; without them there is no heap. */
    constructor (allocator: Pmm.Allocator, vaOffset: nat)
      requires allocator.Valid() && vaOffset % 4096 == 0 && vaOffset + allocator.start + allocator.total * 4096 < WORD
      modifies allocator, allocator.bitmap
      ensures pmm == allocator && offset == vaOffset
      ensures head == NULL ==> blocks == [] && pmm.Valid() && pmm.taken == old(allocator.taken)
      ensures head != NULL ==> Valid() && exists va :: View() == Fresh(va)
    {
      pmm, offset := allocator, vaOffset;
      var phys;
      ghost var p;
      phys, p := allocator.AllocatePages(256);
      var va := vaOffset + phys;
      if phys == 0 {
        meta, next, head, regions, blocks, frames := map[], map[], NULL, [], [], {};
      } else {
        ghost var s := FreshReady(vaOffset, allocator.start, allocator.total, p, va);
        meta, next, head := map[va := Meta(0x10_0000 - 32, MAGIC_FREE, true)], map[va := NULL], va;
        regions, blocks, frames := [Region(va, 0x10_0000)], s.blocks, Pmm.Run(p, 256);
      }
    }

    /** Walk the list for the first block that fits. */
    method FindFit(n: nat) returns (cur: int, ghost i: nat)
      requires List(next, head, Addrs(blocks)) && Labelled(meta, blocks)
      ensures i == FirstFit(blocks, n)
      ensures cur == if i < |blocks| then blocks[i].addr else NULL
    {
      cur, i := head, 0;
      while cur != NULL
        invariant i <= |blocks| && cur == (if i < |blocks| then blocks[i].addr else NULL)
        invariant forall k :: 0 <= k < i ==> !Fits(blocks[k], n)
        decreases |blocks| - i
      {
        assert blocks[i] in blocks && Says(meta, blocks[i]);
        if meta[cur].isFree && meta[cur].size >= n {
          FitIs(blocks, n, i);
          return;
        }
        assert Follow(next, Addrs(blocks)[i]) == After(Addrs(blocks), i, NULL);
        cur, i := Follow(next, cur), i + 1;
      }
      FitIs(blocks, n, i);
    }

    /** Serve a request from block i, splitting it when enough is left over. */
    method Serve(cur: nat, n: nat, ghost i: nat) returns (ptr: nat)
      requires Valid() && i < |blocks| && cur == blocks[i].addr && n <= blocks[i].size && n % 16 == 0
      modifies this`meta, this`next, this`blocks
      ensures Valid() && blocks == Carve(old(blocks), i, n) && ptr == cur + 32
    {
      CarveInv(View(), i, n);
      Cut(cur, n, i);
      ptr := cur + 32;
    }

    method Cut(cur: nat, n: nat, ghost i: nat)
      requires InMemory(meta, next, head, blocks) && Apart(blocks)
      requires i < |blocks| && cur == blocks[i].addr && n <= blocks[i].size
      modifies this`meta, this`next, this`blocks
      ensures InMemory(meta, next, head, blocks) && blocks == Carve(old(blocks), i, n)
    {
      ghost var b := blocks[i];
      assert b in blocks && Says(meta, b);
      blocks := Carve(blocks, i, n);
      var remaining := meta[cur].size - n;
      if remaining > 64 {
        CutTwo(meta, next, head, old(blocks), i, n);
        var rest: nat := cur + 32 + n;
        meta := meta[rest := Meta(remaining - 32, MAGIC_FREE, true)];
        next := next[rest := Follow(next, cur)];
        meta := meta[cur := Meta(n, MAGIC_ALLOC, false)];
        next := next[cur := rest];
      } else {
        CutWhole(meta, next, head, old(blocks), i, n);
        meta := meta[cur := Meta(meta[cur].size, MAGIC_ALLOC, false)];
      }
    }

    /** Append a region's block, then record the region; without room for it both are undone. */
    method HeapExpand(need: nat) returns (ok: bool, ghost grant: Option<nat>)
      requires Valid()
      modifies this, pmm, pmm.bitmap
      ensures Valid() && Granted(old(View()), need, grant)
      ensures grant.Some? <==> Spare(old(pmm.taken), pmm.total, PagesFor(need))
      ensures ok <==> Expand(old(View()), need, grant).Some?
      ensures View() == if ok then Expand(old(View()), need, grant).value else old(View())
      ensures !ok ==> pmm.taken == old(pmm.taken)
    {
      ok, grant := Grow(PagesFor(need));
    }

    method Grow(pages: nat) returns (ok: bool, ghost grant: Option<nat>)
      requires Valid() && pages > 0
      modifies this, pmm, pmm.bitmap
      ensures Valid() && (grant.Some? ==> Fine(old(View()), pages, grant.value))
      ensures grant.Some? <==> Spare(old(pmm.taken), pmm.total, pages)
      ensures ok <==> ExpandBy(old(View()), pages, grant).Some?
      ensures View() == if ok then ExpandBy(old(View()), pages, grant).value else old(View())
      ensures !ok ==> pmm.taken == old(pmm.taken)
    {
      var phys;
      ghost var p;
      phys, p := GetPages(pages);
      if phys == 0 {
        return false, None;
      }
      grant := Some(offset + phys);
      GiveBack(old(pmm.taken), p, pages);
      ok := AdoptOrReturn(phys, pages, p);
    }

    /** The new pages become a region, or go back. */
    method AdoptOrReturn(phys: nat, pages: nat, ghost p: nat) returns (ok: bool)
      requires Valid() && pages > 0 && phys == Pmm.FrameAddr(pmm.start, p)
      requires pmm.reserved <= p && p + pages <= pmm.total
      requires Pmm.Run(p, pages) <= pmm.taken && frames !! Pmm.Run(p, pages) && Fine(View(), pages, offset + phys)
      modifies this, pmm, pmm.bitmap
      ensures Valid() && (ok <==> ExpandBy(old(View()), pages, Some(offset + phys)).Some?)
      ensures View() == if ok then ExpandBy(old(View()), pages, Some(offset + phys)).value else old(View())
      ensures pmm.taken == if ok then old(pmm.taken) else old(pmm.taken) - Pmm.Run(p, pages)
    {
      ok := Adopt(offset + phys, pages, p);
      if !ok {
        pmm.FreePages(phys, pages, p);
      }
    }

    method GetPages(pages: nat) returns (phys: nat, ghost p: nat)
      requires Valid() && pages > 0
      modifies pmm, pmm.bitmap
      ensures pmm.Valid() && (phys == 0 ==> pmm.taken == old(pmm.taken))
      ensures phys == 0 <==> !Spare(old(pmm.taken), pmm.total, pages)
      ensures phys != 0 ==>
        && phys == Pmm.FrameAddr(pmm.start, p) && pmm.reserved <= p && p + pages <= pmm.total
        && pmm.taken == old(pmm.taken) + Pmm.Run(p, pages) && Pmm.FreeRun(old(pmm.taken), p, pages)
        && Fine(View(), pages, offset + phys)
    {
      phys, p := pmm.AllocatePages(pages);
      if phys != 0 {
        Grants(View(), offset, pmm.start, pmm.total, frames, p, pages);
        assert p in Pmm.Run(p, pages) && p !in old(pmm.taken);
      }
    }

    /** Link the new pages in as one free block and record the region. */
    method Adopt(va: nat, pages: nat, ghost p: nat) returns (ok: bool)
      requires Sound() && pages > 0 && Fine(View(), pages, va) && va == offset + pmm.start + p * 4096
      modifies this`meta, this`next, this`blocks, this`regions, this`frames
      ensures ok <==> ExpandBy(old(View()), pages, Some(va)).Some?
      ensures View() == if ok then ExpandBy(old(View()), pages, Some(va)).value else old(View())
      ensures Sound() && frames == if ok then old(frames) + Pmm.Run(p, pages) else old(frames)
    {
      var bytes := pages * 4096;
      ghost var b := Block(va, bytes - 32, true);
      NewBlock(View(), b);
      var tail := AppendTail(va, bytes, b);
      if |regions| >= MAX_REGIONS {
        DropTail(tail, va, b);
        assert blocks == old(blocks);
        return false;
      }
      GrowInv(old(View()), pages, va);
      MoreHeld(regions, offset + pmm.start, frames, p, pages);
      regions := regions + [Region(va, bytes)];
      frames := frames + Pmm.Run(p, pages);
      ok := true;
    }

    /** Walk to the last block. */
    method FindTail() returns (tail: nat)
      requires List(next, head, Addrs(blocks)) && blocks != []
      ensures tail == blocks[|blocks| - 1].addr
    {
      tail := head;
      ghost var i := 0;
      assert Follow(next, Addrs(blocks)[i]) == After(Addrs(blocks), i, NULL);
      while Follow(next, tail) != NULL
        invariant i < |blocks| && tail == blocks[i].addr
        invariant Follow(next, Addrs(blocks)[i]) == After(Addrs(blocks), i, NULL)
        decreases |blocks| - i
      {
        tail, i := Follow(next, tail), i + 1;
        assert Follow(next, Addrs(blocks)[i]) == After(Addrs(blocks), i, NULL);
      }
    }

    method AppendTail(va: nat, bytes: nat, ghost b: Block) returns (tail: nat)
      requires InMemory(meta, next, head, blocks) && Distinct(Addrs(blocks)) && blocks != []
      requires bytes >= 32 && b == Block(va, bytes - 32, true) && forall c :: c in blocks ==> c.addr != va
      modifies this`meta, this`next, this`blocks
      ensures InMemory(meta, next, head, blocks) && blocks == old(blocks) + [b] && Distinct(Addrs(blocks))
      ensures tail == old(blocks)[|old(blocks)| - 1].addr
    {
      AppendInMemory(meta, next, head, blocks, b);
      meta := meta[va := Meta(bytes - 32, MAGIC_FREE, true)];
      tail := FindTail();
      next := next[va := NULL];
      next := next[tail := va];
      blocks := blocks + [b];
    }

    method DropTail(tail: nat, va: nat, ghost b: Block)
      requires InMemory(meta, next, head, blocks) && Distinct(Addrs(blocks)) && |blocks| >= 2
      requires b == blocks[|blocks| - 1] && b.addr == va && tail == blocks[|blocks| - 2].addr
      modifies this`meta, this`next, this`blocks
      ensures InMemory(meta, next, head, blocks) && blocks == old(blocks)[..|old(blocks)| - 1]
    {
      DropInMemory(meta, next, head, blocks);
      next := next[tail := NULL];
      meta := meta - {va};
      blocks := blocks[..|blocks| - 1];
    }

    /**
     kmalloc: try, grow on failure, try once more. `g1` and `g2` are what the page
     allocator answered to the first and second expansion.
     */
    method Kmalloc(size: nat) returns (ptr: nat, ghost g1: Option<nat>, ghost g2: Option<nat>)
      requires Valid() && size < WORD
      modifies this, pmm, pmm.bitmap
      ensures Valid() && GrantedBoth(old(View()), size, g1, g2)
      ensures (View(), ptr) == Heap.Kmalloc(old(View()), size, g1, g2)
      ensures ptr != 0 <==>
        CanServe(old(View()), size, Spare(old(pmm.taken), pmm.total, PagesFor(AlignUp(size))))
    {
      g1, g2, ptr := None, None, 0;
      if size == 0 {
        return;
      }
      if size > WORD - 16 {
        return;
      }
      var n := AlignUp(size);
      var more;
      ptr, more, g1 := Attempt(n);
      if more {
        ptr, more, g2 := Attempt(n);
      }
      KmallocIff(old(View()), size, g1, g2);
    }

    /** One round: serve the request, or grow so that it can be tried again. */
    method Attempt(n: nat) returns (ptr: nat, more: bool, ghost grant: Option<nat>)
      requires Valid() && n % 16 == 0
      modifies this, pmm, pmm.bitmap
      ensures Valid() && Granted(old(View()), n, grant)
      ensures var s, i := old(View()), FirstFit(old(blocks), n);
        if i < |s.blocks| then
          View() == s.(blocks := Carve(s.blocks, i, n)) && ptr == Payload(s.blocks[i]) && !more && grant.None?
        else
          && ptr == 0 && (more <==> Expand(s, n, grant).Some?)
          && (grant.Some? <==> Spare(old(pmm.taken), pmm.total, PagesFor(n)))
          && View() == if more then Expand(s, n, grant).value else s
    {
      var cur;
      ghost var i;
      cur, i := FindFit(n);
      if cur != NULL {
        ptr := Serve(cur, n, i);
        return ptr, false, None;
      }
      more, grant := HeapExpand(n);
      ptr := 0;
    }

    method InAnyRegion(a: nat) returns (yes: bool)
      ensures yes <==> InRegion(regions, a)
    {
      for i := 0 to |regions|
        invariant forall k :: 0 <= k < i ==> !(regions[k].start <= a < regions[k].start + regions[k].bytes)
      {
        if regions[i].start <= a < regions[i].start + regions[i].bytes {
          return true;
        }
      }
      return false;
    }

    /** kfree. `bytes` is the header found in front of `ptr` when no block starts there. */
    method Kfree(ptr: nat, bytes: Meta)
      requires Valid() && ptr < WORD
      modifies this`meta, this`next, this`blocks
      ensures Valid()
      ensures View() == Heap.Kfree(old(View()), ptr, bytes.magic == MAGIC_ALLOC && !bytes.isFree)
    {
      if ptr == 0 {
        return;
      }
      var a := (ptr + WORD - 32) % WORD;
      var inside := InAnyRegion(a);
      if !inside {
        return;
      }
      ghost var i := BlockAt(blocks, a);
      HeaderAt(meta, blocks, a);
      var header := if a in meta then meta[a] else bytes;
      if header.magic != MAGIC_ALLOC {
        return;
      }
      if header.isFree {
        return;
      }
      KfreeInv(View(), ptr, bytes.magic == MAGIC_ALLOC && !bytes.isFree);
      AddrsApart(blocks);
      if a in meta {
        RelabelInMemory(meta, next, head, blocks, i, blocks[i].(free := true));
        meta := meta[a := Meta(meta[a].size, MAGIC_FREE, true)];
        blocks := blocks[i := blocks[i].(free := true)];
        assert Addrs(blocks) == Addrs(old(blocks));
      }
      CoalesceWalk();
    }

    /** Walk the list, letting each free block swallow the free blocks that touch it. */
    method CoalesceWalk()
      requires InMemory(meta, next, head, blocks) && Distinct(Addrs(blocks))
      modifies this`meta, this`next, this`blocks
      ensures InMemory(meta, next, head, blocks) && blocks == Coalesce(old(blocks))
    {
      var cur := head;
      ghost var k := 0;
      assert blocks[0..] == blocks;
      while cur != NULL
        invariant InMemory(meta, next, head, blocks) && Distinct(Addrs(blocks)) && k <= |blocks|
        invariant cur == if k < |blocks| then blocks[k].addr else NULL
        invariant blocks[..k] + Coalesce(blocks[k..]) == Coalesce(old(blocks))
        decreases |blocks| - k
      {
        MergeRun(cur, k);
        NextBlock(next, head, blocks, k);
        StepOver(blocks, k);
        cur, k := Follow(next, cur), k + 1;
      }
      assert blocks[k..] == [];
    }

    /** The inner loop, at block k: when it ends nothing can be merged into the block. */
    method MergeRun(cur: nat, ghost k: nat)
      requires InMemory(meta, next, head, blocks) && Distinct(Addrs(blocks)) && k < |blocks| && cur == blocks[k].addr
      modifies this`meta, this`next, this`blocks
      ensures InMemory(meta, next, head, blocks) && Distinct(Addrs(blocks)) && k < |blocks| <= |old(blocks)|
      ensures cur == blocks[k].addr
      ensures blocks[..k] + Coalesce(blocks[k..]) == old(blocks[..k] + Coalesce(blocks[k..]))
      ensures k + 1 < |blocks| ==> !Mergeable(blocks[k], blocks[k + 1])
    {
      NextBlock(next, head, blocks, k);
      assert Says(meta, blocks[k]);
      while meta[cur].isFree && Follow(next, cur) != NULL && meta[Follow(next, cur)].isFree
        invariant InMemory(meta, next, head, blocks) && Distinct(Addrs(blocks)) && k < |blocks| <= |old(blocks)|
        invariant cur == blocks[k].addr
        invariant blocks[..k] + Coalesce(blocks[k..]) == old(blocks[..k] + Coalesce(blocks[k..]))
        invariant Follow(next, cur) == (if k + 1 < |blocks| then blocks[k + 1].addr else NULL) && Says(meta, blocks[k])
        invariant k + 1 < |blocks| ==> Says(meta, blocks[k + 1])
        decreases |blocks|
      {
        var n: nat := Follow(next, cur);
        if cur + 32 + meta[cur].size != n {
          break;
        }
        ghost var meta1, next1, bs := MergeRound(meta, next, head, blocks, k, cur, n);
        meta := (meta - {n})[cur := Meta(meta[cur].size + 32 + meta[n].size, meta[cur].magic, true)];
        next := next[cur := Follow(next, n)];
        blocks := bs;
      }
    }
  }

  lemma CutTwo(meta: map<nat, Meta>, next: map<nat, int>, head: int, bs: seq<Block>, i: nat, n: nat)
    requires InMemory(meta, next, head, bs) && Apart(bs) && i < |bs| && n <= bs[i].size && bs[i].size - n > 64
    ensures var cur, rest := bs[i].addr, bs[i].addr + 32 + n;
      InMemory(meta[rest := Meta(bs[i].size - n - 32, MAGIC_FREE, true)][cur := Meta(n, MAGIC_ALLOC, false)],
               next[rest := Follow(next, cur)][cur := rest], head, Carve(bs, i, n))
  {
    var two, meta1, next1 := CutRest(meta, next, head, bs, i, n);
    RelabelAs(meta1, next1, head, two, i, Block(bs[i].addr, n, false), Carve(bs, i, n));
  }

  /** The first half of a cut: the rest is linked in, the block itself not yet shortened. */
  lemma CutRest(meta: map<nat, Meta>, next: map<nat, int>, head: int, bs: seq<Block>, i: nat, n: nat)
    returns (two: seq<Block>, meta1: map<nat, Meta>, next1: map<nat, int>)
    requires InMemory(meta, next, head, bs) && Apart(bs) && i < |bs| && n <= bs[i].size && bs[i].size - n > 64
    ensures var cur, rest := bs[i].addr, bs[i].addr + 32 + n;
      && meta1 == meta[rest := Meta(bs[i].size - n - 32, MAGIC_FREE, true)]
      && next1 == next[rest := Follow(next, cur)][cur := rest]
    ensures InMemory(meta1, next1, head, two)
    ensures i < |two| && two[i] == bs[i] && Distinct(Addrs(two))
    ensures two[i := Block(bs[i].addr, n, false)] == Carve(bs, i, n)
  {
    var y := Block(bs[i].addr + 32 + n, bs[i].size - n - 32, true);
    AddrsApart(bs);
    InsideFree(bs, i, y.addr);
    InsertBlock(meta, next, head, bs, i, y);
    CutIs(bs, i, n);
    two := bs[..i + 1] + ([y] + bs[i + 1..]);
    meta1, next1 := meta[y.addr := MetaOf(y)], next[y.addr := Follow(next, bs[i].addr)][bs[i].addr := y.addr];
  }

  lemma RelabelAs(meta: map<nat, Meta>, next: map<nat, int>, head: int, bs: seq<Block>, i: nat, c: Block,
                  cs: seq<Block>)
    requires InMemory(meta, next, head, bs) && Distinct(Addrs(bs)) && i < |bs| && c.addr == bs[i].addr
    requires bs[i := c] == cs
    ensures InMemory(meta[c.addr := MetaOf(c)], next, head, cs)
  {
    RelabelInMemory(meta, next, head, bs, i, c);
  }

  lemma CutWhole(meta: map<nat, Meta>, next: map<nat, int>, head: int, bs: seq<Block>, i: nat, n: nat)
    requires InMemory(meta, next, head, bs) && Apart(bs) && i < |bs| && n <= bs[i].size && bs[i].size - n <= 64
    ensures InMemory(meta[bs[i].addr := Meta(bs[i].size, MAGIC_ALLOC, false)], next, head, Carve(bs, i, n))
  {
    AddrsApart(bs);
    CutIs(bs, i, n);
    RelabelAs(meta, next, head, bs, i, bs[i].(free := false), Carve(bs, i, n));
  }

  /** No block starts inside another. */
  lemma InsideFree(bs: seq<Block>, i: nat, a: nat)
    requires Apart(bs) && i < |bs| && bs[i].addr < a < End(bs[i])
    ensures forall b :: b in bs ==> b.addr != a
  {
    forall b | b in bs ensures b.addr != a { ApartPair(bs, bs[i], b); }
  }

  lemma AppendInMemory(meta: map<nat, Meta>, next: map<nat, int>, head: int, bs: seq<Block>, b: Block)
    requires InMemory(meta, next, head, bs) && Distinct(Addrs(bs)) && bs != []
    requires forall c :: c in bs ==> c.addr != b.addr
    ensures InMemory(meta[b.addr := MetaOf(b)], next[b.addr := NULL][bs[|bs| - 1].addr := b.addr], head, bs + [b])
    ensures Distinct(Addrs(bs + [b]))
  {
    var n := |bs| - 1;
    InsertBlock(meta, next, head, bs, n, b);
    assert bs[..n + 1] + ([b] + bs[n + 1..]) == bs + [b];
    assert Follow(next, Addrs(bs)[n]) == After(Addrs(bs), n, NULL);
  }

  lemma DropInMemory(meta: map<nat, Meta>, next: map<nat, int>, head: int, bs: seq<Block>)
    requires InMemory(meta, next, head, bs) && Distinct(Addrs(bs)) && |bs| >= 2
    ensures InMemory(meta - {bs[|bs| - 1].addr}, next[bs[|bs| - 2].addr := NULL], head, bs[..|bs| - 1])
  {
    var n := |bs| - 2;
    RemoveBlock(meta, next, head, bs, n);
    assert Follow(next, Addrs(bs)[n + 1]) == After(Addrs(bs), n + 1, NULL);
    assert bs[..n + 1] + bs[n + 2..] == bs[..|bs| - 1];
  }

  lemma GiveBack(taken: set<nat>, p: nat, pages: nat)
    requires Pmm.FreeRun(taken, p, pages)
    ensures taken + Pmm.Run(p, pages) - Pmm.Run(p, pages) == taken
  {
  }

  /** The page allocator's answer is proper memory for a new region. */
  lemma Grants(s: State, offset: nat, start: nat, total: nat, frames: set<nat>, p: nat, pages: nat)
    requires offset % 4096 == 0 && start % 4096 == 0 && 0 < start && offset + start + total * 4096 < WORD
    requires p + pages <= total && Held(s.regions, offset + start, frames) && frames !! Pmm.Run(p, pages)
    ensures Fine(s, pages, offset + Pmm.FrameAddr(start, p))
  {
    var va := offset + Pmm.FrameAddr(start, p);
    GrantAddr(offset, start, total, p, pages);
    forall a: nat | va <= a < va + pages * 4096 ensures !InRegion(s.regions, a) {
      FreshPages(s.regions, offset + start, frames, p, pages, a);
    }
  }

  lemma NewBlock(s: State, b: Block)
    requires Inv(s) && forall a: nat :: b.addr <= a < End(b) ==> !InRegion(s.regions, a)
    ensures Distinct(Addrs(s.blocks)) && forall c :: c in s.blocks ==> c.addr != b.addr
  {
    AddrsApart(s.blocks);
    NewApart(s, b);
  }

  /** What the header read in front of a pointer tells about the list. */
  lemma HeaderAt(meta: map<nat, Meta>, bs: seq<Block>, a: nat)
    requires Labelled(meta, bs)
    ensures a in meta <==> BlockAt(bs, a) < |bs|
    ensures a in meta ==> meta[a] == MetaOf(bs[BlockAt(bs, a)])
  {
    var i := BlockAt(bs, a);
    if i < |bs| { assert bs[i] in bs && Says(meta, bs[i]); }
    if a in meta {
      assert Starts(bs, a);
      var b :| b in bs && b.addr == a;
    }
  }

  lemma NextBlock(next: map<nat, int>, head: int, bs: seq<Block>, k: nat)
    requires List(next, head, Addrs(bs)) && k < |bs|
    ensures Follow(next, bs[k].addr) == if k + 1 < |bs| then bs[k + 1].addr else NULL
    ensures bs[k] in bs && (k + 1 < |bs| ==> bs[k + 1] in bs)
  {
    assert Follow(next, Addrs(bs)[k]) == After(Addrs(bs), k, NULL);
  }

  /** The list with block k + 1 merged into block k. */
  ghost function Merged(bs: seq<Block>, k: nat): (r: seq<Block>)
    requires k + 1 < |bs|
  {
    (bs[..k + 1] + bs[k + 2..])[k := Merge(bs[k], bs[k + 1])]
  }

  /** One round of the inner loop: the block behind is swallowed, and what the loop relies on holds again. */
  lemma MergeRound(meta: map<nat, Meta>, next: map<nat, int>, head: int, bs: seq<Block>, k: nat, cur: nat, n: nat)
    returns (meta1: map<nat, Meta>, next1: map<nat, int>, bs1: seq<Block>)
    requires InMemory(meta, next, head, bs) && Distinct(Addrs(bs)) && k + 1 < |bs| && Mergeable(bs[k], bs[k + 1])
    requires cur == bs[k].addr && n == bs[k + 1].addr && Says(meta, bs[k]) && Says(meta, bs[k + 1])
    ensures meta1 == (meta - {n})[cur := Meta(meta[cur].size + 32 + meta[n].size, meta[cur].magic, true)]
    ensures next1 == next[cur := Follow(next, n)]
    ensures InMemory(meta1, next1, head, bs1) && Distinct(Addrs(bs1)) && k < |bs1| == |bs| - 1 && cur == bs1[k].addr
    ensures bs1[..k] + Coalesce(bs1[k..]) == bs[..k] + Coalesce(bs[k..])
    ensures Follow(next1, cur) == (if k + 1 < |bs1| then bs1[k + 1].addr else NULL) && Says(meta1, bs1[k])
    ensures k + 1 < |bs1| ==> Says(meta1, bs1[k + 1])
  {
    MergeInMemory(meta, next, head, bs, k);
    MergeStep(bs, k);
    meta1 := (meta - {n})[cur := Meta(meta[cur].size + 32 + meta[n].size, meta[cur].magic, true)];
    next1, bs1 := next[cur := Follow(next, n)], Merged(bs, k);
    NextBlock(next1, head, bs1, k);
    assert bs1[k] in bs1;
  }

  lemma MergeInMemory(meta: map<nat, Meta>, next: map<nat, int>, head: int, bs: seq<Block>, k: nat)
    requires InMemory(meta, next, head, bs) && Distinct(Addrs(bs)) && k + 1 < |bs| && bs[k].free
    ensures InMemory((meta - {bs[k + 1].addr})[bs[k].addr := MetaOf(Merge(bs[k], bs[k + 1]))],
                     next[bs[k].addr := Follow(next, bs[k + 1].addr)], head, Merged(bs, k))
    ensures Distinct(Addrs(Merged(bs, k)))
  {
    var r, q := bs[..k + 1] + bs[k + 2..], Addrs(bs);
    RemoveBlock(meta, next, head, bs, k);
    assert Addrs(r) == q[..k + 1] + q[k + 2..];
    DistinctWithout(q, k + 1);
    Relabel(meta - {bs[k + 1].addr}, r, k, Merge(bs[k], bs[k + 1]));
    RelabelInMemory(meta - {bs[k + 1].addr}, next[bs[k].addr := Follow(next, bs[k + 1].addr)], head, r, k,
                    Merge(bs[k], bs[k + 1]));
  }

  lemma DistinctWithout(q: seq<nat>, k: nat)
    requires Distinct(q) && k < |q|
    ensures Distinct(q[..k] + q[k + 1..])
  {
    var r := q[..k] + q[k + 1..];
    forall i, j | 0 <= i < j < |r| ensures r[i] != r[j] {
      assert r[i] == q[if i < k then i else i + 1] && r[j] == q[if j < k then j else j + 1];
    }
  }

  lemma MergeStep(bs: seq<Block>, k: nat)
    requires k + 1 < |bs| && Mergeable(bs[k], bs[k + 1])
    ensures Merged(bs, k)[..k] + Coalesce(Merged(bs, k)[k..]) == bs[..k] + Coalesce(bs[k..])
  {
    var r := Merged(bs, k);
    assert r[..k] == bs[..k] && r[k..] == [Merge(bs[k], bs[k + 1])] + bs[k + 2..];
    assert bs[k..][2..] == bs[k + 2..];
  }

  lemma StepOver(bs: seq<Block>, k: nat)
    requires k < |bs| && (k + 1 < |bs| ==> !Mergeable(bs[k], bs[k + 1]))
    ensures bs[..k + 1] + Coalesce(bs[k + 1..]) == bs[..k] + Coalesce(bs[k..])
  {
    assert bs[k..][1..] == bs[k + 1..];
    assert bs[..k + 1] == bs[..k] + [bs[k]];
    if k + 1 == |bs| { assert bs[k..] == [bs[k]]; }
  }
}
