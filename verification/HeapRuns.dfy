/** Whole runs of the heap: what kmalloc gives, what kfree takes back, what every run conserves. */
module HeapRuns {
  import opened Common
  import opened Heap

  // ---------------------------------------------------------------------
  // Each operation keeps the invariant
  // ---------------------------------------------------------------------

  /** What the page allocator promises: page-aligned memory that no region holds. */
  ghost predicate Granted(s: State, need: nat, grant: Option<nat>) {
    grant.Some? ==> Fine(s, PagesFor(need), grant.value)
  }

  ghost predicate Fine(s: State, pages: nat, va: nat) {
    && 4096 <= va && va % 4096 == 0 && va + pages * 4096 < WORD
    && forall a: nat :: va <= a < va + pages * 4096 ==> !InRegion(s.regions, a)
  }

  lemma SpaceInv(s: State, bs: seq<Block>)
    requires Inv(s) && SameSpace(s.blocks, bs)
    ensures Inv(s.(blocks := bs))
  {
    NotEmpty(s.blocks);
    assert Bytes(bs) > 0;
  }

  lemma NotEmpty(bs: seq<Block>)
    requires bs != []
    ensures Bytes(bs) >= 32
  {
  }

  lemma Around(bs: seq<Block>, i: nat)
    requires i < |bs|
    ensures bs == bs[..i] + ([bs[i]] + bs[i + 1..])
  {
  }

  lemma CarveInv(s: State, i: nat, n: nat)
    requires Inv(s) && i < |s.blocks| && n <= s.blocks[i].size && n % 16 == 0
    ensures Inv(s.(blocks := Carve(s.blocks, i, n)))
  {
    var bs, b := s.blocks, s.blocks[i];
    Around(bs, i);
    assert b in bs;
    CarvedSpace(b, n);
    Replace(bs[..i], [b], Carved(b, n), bs[i + 1..]);
    SpaceInv(s, Carve(bs, i, n));
  }

  lemma {:induction false} CoveredBy(bs: seq<Block>, b: Block, a: nat)
    requires b in bs && b.addr <= a < End(b)
    ensures Covered(bs, a)
  {
    if b != bs[0] { CoveredBy(bs[1..], b, a); }
  }

  /** A block outside every region touches no block of the list. */
  lemma NewApart(s: State, b: Block)
    requires Inv(s) && forall a: nat :: b.addr <= a < End(b) ==> !InRegion(s.regions, a)
    ensures FromAll(b, s.blocks)
  {
    forall c | c in s.blocks ensures Disjoint(b, c) {
      if !Disjoint(b, c) {
        var a := if b.addr < c.addr then c.addr else b.addr;
        CoveredBy(s.blocks, c, a);
      }
    }
  }

  lemma RegionConcat(rs: seq<Region>, r: Region, a: nat)
    ensures InRegion(rs + [r], a) <==> InRegion(rs, a) || r.start <= a < r.start + r.bytes
  {
    var all := rs + [r];
    if InRegion(rs, a) {
      var i :| 0 <= i < |rs| && rs[i].start <= a < rs[i].start + rs[i].bytes;
      assert all[i] == rs[i];
    }
    if r.start <= a < r.start + r.bytes { assert all[|rs|] == r; }
  }

  lemma PageAligned(a: nat, pages: nat)
    requires a % 4096 == 0 && pages > 0
    ensures a % 16 == 0 && pages * 4096 >= 4096 && (pages * 4096 - 32) % 16 == 0
  {
    assert a == 16 * (256 * (a / 4096)) && pages * 4096 - 32 == 16 * (256 * pages - 2);
  }

  lemma ExpandInv(s: State, need: nat, grant: Option<nat>)
    requires Inv(s) && Granted(s, need, grant) && Expand(s, need, grant).Some?
    ensures Inv(Expand(s, need, grant).value)
  {
    GrowInv(s, PagesFor(need), grant.value);
  }

  lemma GrowInv(s: State, pages: nat, va: nat)
    requires Inv(s) && pages > 0 && Fine(s, pages, va) && ExpandBy(s, pages, Some(va)).Some?
    ensures Inv(ExpandBy(s, pages, Some(va)).value)
  {
    PageAligned(va, pages);
    AppendInv(s, Block(va, pages * 4096 - 32, true));
  }

  /** A block of its own goes with a region of its own. */
  lemma AppendInv(s: State, b: Block)
    requires Inv(s) && BlockOk(b) && |s.regions| < MAX_REGIONS
    requires forall a: nat :: b.addr <= a < End(b) ==> !InRegion(s.regions, a)
    ensures Inv(State(s.blocks + [b], s.regions + [Region(b.addr, 32 + b.size)]))
  {
    var r := Region(b.addr, 32 + b.size);
    AppendSpace(s, b);
    assert (s.regions + [r])[..|s.regions|] == s.regions;
    forall a: nat ensures Covered(s.blocks + [b], a) <==> InRegion(s.regions + [r], a) {
      CoveredConcat(s.blocks, [b], a);
      RegionConcat(s.regions, r, a);
      assert [b][1..] == [];
    }
  }

  lemma AppendSpace(s: State, b: Block)
    requires Inv(s) && BlockOk(b)
    requires forall a: nat :: b.addr <= a < End(b) ==> !InRegion(s.regions, a)
    ensures AllOk(s.blocks + [b]) && Apart(s.blocks + [b]) && Bytes(s.blocks + [b]) == Bytes(s.blocks) + 32 + b.size
  {
    NewApart(s, b);
    ApartConcat(s.blocks, [b]);
    BytesConcat(s.blocks, [b]);
    assert [b][1..] == [];
    forall c | c in s.blocks ensures FromAll(c, [b]) { assert Disjoint(b, c); }
    assert Separate(s.blocks, [b]) && Apart([b]);
    forall c | c in s.blocks + [b] ensures BlockOk(c) {}
  }

  lemma OneSpace(b: Block, c: Block)
    requires BlockOk(b) && c.addr == b.addr && c.size == b.size
    ensures SameSpace([b], [c])
  {
    assert [b][1..] == [] && [c][1..] == [];
    forall a: nat ensures Covered([b], a) <==> Covered([c], a) {}
    forall x | FromAll(x, [b]) ensures FromAll(x, [c]) { assert b in [b]; }
  }

  lemma FreeSpace(bs: seq<Block>, i: nat)
    requires AllOk(bs) && Apart(bs) && i < |bs|
    ensures SameSpace(bs, bs[i := bs[i].(free := true)])
  {
    var b, c := bs[i], bs[i].(free := true);
    Around(bs, i);
    assert b in bs;
    OneSpace(b, c);
    Replace(bs[..i], [b], [c], bs[i + 1..]);
    assert bs[i := c] == bs[..i] + ([c] + bs[i + 1..]);
  }

  lemma CoalesceInv(s: State)
    requires Inv(s)
    ensures Inv(s.(blocks := Coalesce(s.blocks)))
  {
    CoalesceSpace(s.blocks);
    SpaceInv(s, Coalesce(s.blocks));
  }

  lemma KfreeInv(s: State, ptr: nat, forged: bool)
    requires Inv(s)
    ensures Inv(Kfree(s, ptr, forged))
  {
    var i := BlockAt(s.blocks, (ptr + WORD - 32) % WORD);
    if i < |s.blocks| {
      FreeSpace(s.blocks, i);
      var s1 := s.(blocks := s.blocks[i := s.blocks[i].(free := true)]);
      SpaceInv(s, s1.blocks);
      CoalesceInv(s1);
    } else {
      CoalesceInv(s);
    }
  }

  /** Both expansions a request may cause get proper memory. */
  ghost predicate GrantedBoth(s: State, size: nat, grant1: Option<nat>, grant2: Option<nat>) {
    && Granted(s, AlignUp(size), grant1)
    && (var s1 := Expand(s, AlignUp(size), grant1); s1.Some? ==> Granted(s1.value, AlignUp(size), grant2))
  }

  lemma KmallocInv(s: State, size: nat, grant1: Option<nat>, grant2: Option<nat>)
    requires Inv(s) && GrantedBoth(s, size, grant1, grant2)
    ensures Inv(Kmalloc(s, size, grant1, grant2).0)
  {
    var n := AlignUp(size);
    var i := FirstFit(s.blocks, n);
    if i < |s.blocks| {
      CarveInv(s, i, n);
    } else if Expand(s, n, grant1).Some? {
      var s1 := Expand(s, n, grant1).value;
      ExpandInv(s, n, grant1);
      var j := FirstFit(s1.blocks, n);
      if j < |s1.blocks| { CarveInv(s1, j, n); } else if Expand(s1, n, grant2).Some? { ExpandInv(s1, n, grant2); }
    }
  }

  // ---------------------------------------------------------------------
  // Freeing undoes allocating
  // ---------------------------------------------------------------------

  /** Cutting a free block in two makes no difference to coalescing. */
  lemma {:induction false} CoalesceCut(pre: seq<Block>, x: Block, y: Block, post: seq<Block>)
    requires Mergeable(x, y)
    ensures Coalesce(pre + ([x, y] + post)) == Coalesce(pre + ([Merge(x, y)] + post))
    decreases |pre|
  {
    var l, r := pre + ([x, y] + post), pre + ([Merge(x, y)] + post);
    if pre == [] {
      CutFirst(x, y, post);
      assert l == [x, y] + post && r == [Merge(x, y)] + post;
    } else if |pre| == 1 {
      CutAfterOne(pre[0], x, y, post);
      assert l == [pre[0]] + ([x, y] + post) && r == [pre[0]] + ([Merge(x, y)] + post);
    } else if Mergeable(pre[0], pre[1]) {
      var m := Merge(pre[0], pre[1]);
      CoalesceCut([m] + pre[2..], x, y, post);
      assert [m] + l[2..] == ([m] + pre[2..]) + ([x, y] + post);
      assert [m] + r[2..] == ([m] + pre[2..]) + ([Merge(x, y)] + post);
    } else {
      CoalesceCut(pre[1..], x, y, post);
      assert l[1..] == pre[1..] + ([x, y] + post) && r[1..] == pre[1..] + ([Merge(x, y)] + post);
    }
  }

  lemma CutFirst(x: Block, y: Block, post: seq<Block>)
    requires Mergeable(x, y)
    ensures Coalesce([x, y] + post) == Coalesce([Merge(x, y)] + post)
  {
    assert ([x, y] + post)[2..] == post;
  }

  lemma CutAfterOne(p: Block, x: Block, y: Block, post: seq<Block>)
    requires Mergeable(x, y)
    ensures Coalesce([p] + ([x, y] + post)) == Coalesce([p] + ([Merge(x, y)] + post))
  {
    var l, r, xy := [p] + ([x, y] + post), [p] + ([Merge(x, y)] + post), Merge(x, y);
    CutFirst(x, y, post);
    assert l[1..] == [x, y] + post && r[1..] == [xy] + post;
    if Mergeable(p, x) {
      var px := Merge(p, x);
      assert l[2..] == [y] + post && r[2..] == post;
      assert Merge(px, y) == Merge(p, xy);
      assert [px] + ([y] + post) == [px, y] + post;
      assert ([px, y] + post)[2..] == post;
    }
  }

  /** A freed block put back next to its remainder, or put back as it was. */
  lemma CarveUndone(bs: seq<Block>, i: nat, n: nat)
    requires i < |bs| && bs[i].free && n <= bs[i].size
    ensures i < |Carve(bs, i, n)| && !Carve(bs, i, n)[i].free && Carve(bs, i, n)[i].addr == bs[i].addr
    ensures Coalesce(Carve(bs, i, n)[i := Carve(bs, i, n)[i].(free := true)]) == Coalesce(bs)
  {
    var b, c := bs[i], Carve(bs, i, n);
    Around(bs, i);
    if b.size - n > 64 {
      var x, y := Block(b.addr, n, true), Block(b.addr + 32 + n, b.size - n - 32, true);
      assert c[i := x] == bs[..i] + ([x, y] + bs[i + 1..]);
      CoalesceCut(bs[..i], x, y, bs[i + 1..]);
      assert Merge(x, y) == b;
    } else {
      assert c[i := b] == bs;
    }
  }

  /** In a list of blocks that do not overlap an address belongs to one block. */
  lemma {:induction false} BlockAtUnique(bs: seq<Block>, i: nat)
    requires Apart(bs) && i < |bs|
    ensures BlockAt(bs, bs[i].addr) == i
  {
    if i > 0 {
      BlockAtUnique(bs[1..], i - 1);
      assert bs[i] in bs[1..] && Disjoint(bs[0], bs[i]);
    }
  }

  lemma PtrBack(p: nat)
    requires 32 <= p < WORD
    ensures (p + WORD - 32) % WORD == p - 32
  {
    assert p + WORD - 32 == (p - 32) + WORD;
    assert 0 <= p - 32 < 0x1_0000_0000_0000_0000;
  }

  lemma FreeLast(s: State, i: nat, forged: bool)
    requires Inv(s) && i < |s.blocks| && !s.blocks[i].free
    ensures Kfree(s, Payload(s.blocks[i]), forged).blocks == Coalesce(s.blocks[i := s.blocks[i].(free := true)])
    ensures Kfree(s, Payload(s.blocks[i]), forged).regions == s.regions
  {
    var b := s.blocks[i];
    assert b in s.blocks && BlockOk(b);
    PtrBack(Payload(b));
    BlockAtUnique(s.blocks, i);
    CoveredBy(s.blocks, b, b.addr);
  }

  /**
   Freeing what kmalloc just returned leaves the heap as it was, coalesced: exactly
   as it was when nothing had been left to merge.
   */
  lemma FreeUndoes(s: State, size: nat, grant1: Option<nat>, grant2: Option<nat>, forged: bool)
    requires Inv(s) && GrantedBoth(s, size, grant1, grant2) && Kmalloc(s, size, grant1, grant2).1 != 0
    ensures var r := Kmalloc(s, size, grant1, grant2);
      var s0 := if FirstFit(s.blocks, AlignUp(size)) < |s.blocks| then s else Expand(s, AlignUp(size), grant1).value;
      && Kfree(r.0, r.1, forged) == s0.(blocks := Coalesce(s0.blocks))
      && (Kfree(r.0, r.1, forged) == s <==> s0 == s && Coalesced(s.blocks))
  {
    var n := AlignUp(size);
    var s0 := if FirstFit(s.blocks, n) < |s.blocks| then s else Expand(s, n, grant1).value;
    if FirstFit(s.blocks, n) == |s.blocks| { ExpandInv(s, n, grant1); }
    ServeUndone(s0, n, forged);
    CoalesceIdleIff(s.blocks);
  }

  lemma ServeUndone(s: State, n: nat, forged: bool)
    requires Inv(s) && n % 16 == 0 && FirstFit(s.blocks, n) < |s.blocks|
    ensures var i := FirstFit(s.blocks, n);
      Kfree(s.(blocks := Carve(s.blocks, i, n)), Payload(s.blocks[i]), forged) == s.(blocks := Coalesce(s.blocks))
  {
    var i := FirstFit(s.blocks, n);
    CarveInv(s, i, n);
    CarveUndone(s.blocks, i, n);
    FreeLast(s.(blocks := Carve(s.blocks, i, n)), i, forged);
  }

  // ---------------------------------------------------------------------
  // Which blocks are in use
  // ---------------------------------------------------------------------

  ghost predicate InUse(bs: seq<Block>, b: Block) { b in bs && !b.free }

  /** Serving a request adds one block in use and disturbs no other. */
  lemma CarveUses(bs: seq<Block>, i: nat, n: nat)
    requires i < |bs| && bs[i].free && n <= bs[i].size
    ensures var b := Carved(bs[i], n)[0];
      && b.addr == bs[i].addr && b.size >= n
      && forall c :: InUse(Carve(bs, i, n), c) <==> InUse(bs, c) || c == b
  {
    var b, y := Carved(bs[i], n)[0], Carved(bs[i], n);
    Around(bs, i);
    forall c ensures InUse(Carve(bs, i, n), c) <==> InUse(bs, c) || c == b {
      assert c in Carve(bs, i, n) <==> c in bs[..i] || c in y || c in bs[i + 1..];
      assert c in bs <==> c in bs[..i] || c == bs[i] || c in bs[i + 1..];
    }
  }

  lemma ExpandUses(s: State, need: nat, grant: Option<nat>)
    requires Expand(s, need, grant).Some?
    ensures forall c :: InUse(Expand(s, need, grant).value.blocks, c) <==> InUse(s.blocks, c)
  {
  }

  /** The block kmalloc hands out: aligned, large enough, and apart from every block in use. */
  ghost predicate Handed(s: State, s': State, size: nat, ptr: nat, b: Block) {
    && Payload(b) == ptr && ptr % 16 == 0 && b.size >= size && !b.free
    && (forall c :: InUse(s.blocks, c) ==> Disjoint(b, c))
    && (forall c :: InUse(s'.blocks, c) <==> InUse(s.blocks, c) || c == b)
  }

  lemma {:induction false} ApartPair(bs: seq<Block>, b: Block, c: Block)
    requires Apart(bs) && b in bs && c in bs
    ensures b == c || Disjoint(b, c)
  {
    if b != bs[0] && c != bs[0] { ApartPair(bs[1..], b, c); } else if b != c { assert b in bs[1..] || c in bs[1..]; }
  }

  /** kmalloc gives a new block whenever it can, or nothing and changes no block in use. */
  lemma KmallocGives(s: State, size: nat, grant1: Option<nat>, grant2: Option<nat>) returns (b: Block)
    requires Inv(s) && GrantedBoth(s, size, grant1, grant2)
    ensures var r := Kmalloc(s, size, grant1, grant2);
      && (r.1 != 0 <==> CanServe(s, size, grant1.Some?))
      && (r.1 != 0 ==> Handed(s, r.0, size, r.1, b))
      && (r.1 == 0 ==> forall c :: InUse(r.0.blocks, c) <==> InUse(s.blocks, c))
  {
    KmallocIff(s, size, grant1, grant2);
    var n, r := AlignUp(size), Kmalloc(s, size, grant1, grant2);
    var s0 :=
      if FirstFit(s.blocks, n) < |s.blocks| || Expand(s, n, grant1).None? then s else Expand(s, n, grant1).value;
    if s0 != s { ExpandInv(s, n, grant1); ExpandUses(s, n, grant1); }
    var i := FirstFit(s0.blocks, n);
    b := Block(0, 0, true);
    if r.1 != 0 {
      b := Carved(s0.blocks[i], n)[0];
      Serves(s0, n);
    } else if s0 != s && Expand(s0, n, grant2).Some? {
      ExpandUses(s0, n, grant2);
    }
  }

  lemma Serves(s: State, n: nat)
    requires Inv(s) && n % 16 == 0 && FirstFit(s.blocks, n) < |s.blocks|
    ensures var i := FirstFit(s.blocks, n);
      Handed(s, s.(blocks := Carve(s.blocks, i, n)), n, Payload(s.blocks[i]), Carved(s.blocks[i], n)[0])
  {
    var i := FirstFit(s.blocks, n);
    var b := Carved(s.blocks[i], n)[0];
    CarveUses(s.blocks, i, n);
    CarveInv(s, i, n);
    assert s.blocks[i] in s.blocks && BlockOk(s.blocks[i]);
    forall c | InUse(s.blocks, c) ensures Disjoint(b, c) {
      ApartPair(s.blocks, s.blocks[i], c);
    }
  }

  lemma {:induction false} LiveIs(bs: seq<Block>, c: Block)
    ensures c in Live(bs) <==> InUse(bs, c)
  {
    if bs != [] { LiveIs(bs[1..], c); }
  }

  lemma CoalesceUses(bs: seq<Block>)
    ensures forall c :: InUse(Coalesce(bs), c) <==> InUse(bs, c)
  {
    CoalesceLive(bs);
    forall c ensures InUse(Coalesce(bs), c) <==> InUse(bs, c) {
      LiveIs(bs, c);
      LiveIs(Coalesce(bs), c);
    }
  }

  /** Freeing a block takes it, and no other, out of use. */
  lemma KfreeTakes(s: State, b: Block, forged: bool)
    requires Inv(s) && InUse(s.blocks, b)
    ensures forall c :: InUse(Kfree(s, Payload(b), forged).blocks, c) <==> InUse(s.blocks, c) && c != b
  {
    var i :| 0 <= i < |s.blocks| && s.blocks[i] == b;
    var freed := s.blocks[i := b.(free := true)];
    FreeLast(s, i, forged);
    CoalesceUses(freed);
    forall c ensures InUse(freed, c) <==> InUse(s.blocks, c) && c != b { FreedOne(s.blocks, i, c); }
  }

  lemma FreedOne(bs: seq<Block>, i: nat, c: Block)
    requires Apart(bs) && i < |bs| && !bs[i].free
    ensures InUse(bs[i := bs[i].(free := true)], c) <==> InUse(bs, c) && c != bs[i]
  {
    var freed := bs[i := bs[i].(free := true)];
    if InUse(freed, c) {
      var k :| 0 <= k < |freed| && freed[k] == c;
      assert bs[k] == c;
      if c == bs[i] { BlockAtUnique(bs, i); BlockAtUnique(bs, k); }
    }
    if InUse(bs, c) && c != bs[i] {
      var k :| 0 <= k < |bs| && bs[k] == c;
      assert freed[k] == c;
    }
  }

  /**
   Freeing any other pointer, null, foreign, interior or already freed, takes nothing
   out of use; unless the bytes there pass for a header it changes nothing at all, and
   even then only when blocks were left to merge.
   */
  lemma KfreeRefuses(s: State, ptr: nat, forged: bool)
    requires Inv(s) && ptr < WORD && forall b :: InUse(s.blocks, b) ==> Payload(b) != ptr
    ensures forall c :: InUse(Kfree(s, ptr, forged).blocks, c) <==> InUse(s.blocks, c)
    ensures !forged || Coalesced(s.blocks) ==> Kfree(s, ptr, forged) == s
    ensures var a := (ptr + WORD - 32) % WORD;
      forged && ptr != 0 && InRegion(s.regions, a) && (forall b :: b in s.blocks ==> b.addr != a) ==>
        Coalesced(Kfree(s, ptr, forged).blocks)
  {
    var a := (ptr + WORD - 32) % WORD;
    var i := BlockAt(s.blocks, a);
    CoalesceUses(s.blocks);
    CoalesceIdleIff(s.blocks);
    CoalesceDone(s.blocks);
    if i < |s.blocks| { assert s.blocks[i] in s.blocks; }
    if ptr != 0 && i < |s.blocks| && !s.blocks[i].free { NotInUse(s, ptr, i); }
  }

  lemma NotInUse(s: State, ptr: nat, i: nat)
    requires Inv(s) && ptr < WORD && i < |s.blocks| && s.blocks[i].addr == (ptr + WORD - 32) % WORD && !s.blocks[i].free
    ensures exists b :: InUse(s.blocks, b) && Payload(b) == ptr
  {
    var b := s.blocks[i];
    assert b in s.blocks && BlockOk(b);
    if ptr >= 32 { PtrBack(ptr); }
    assert InUse(s.blocks, b);
  }

  // ---------------------------------------------------------------------
  // When a grown heap still cannot serve
  // ---------------------------------------------------------------------

  /**
   When no block fits and the heap can grow, the request is served exactly when its
   size plus header and page rounding stays within 64 bits. Beyond that the sum wraps,
   the expansion is the minimal one, and the heap has grown for nothing.
   */
  lemma ServedAfterGrowthIff(s: State, size: nat, va: nat, grant2: Option<nat>)
    requires Inv(s) && 0 < size <= WORD - 16 && GrantedBoth(s, size, Some(va), grant2)
    requires FirstFit(s.blocks, AlignUp(size)) == |s.blocks| && |s.regions| < MAX_REGIONS
    ensures Kmalloc(s, size, Some(va), grant2).1 != 0 <==> AlignUp(size) + 32 + 4095 < WORD
  {
    var n := AlignUp(size);
    var s1 := Expand(s, n, Some(va)).value;
    var b := s1.blocks[|s.blocks|];
    ExpandInv(s, n, Some(va));
    PagesEnough(n);
    if n + 32 + 4095 < WORD {
      assert Fits(b, n);
    } else {
      forall k | 0 <= k < |s1.blocks| ensures !Fits(s1.blocks[k], n) { assert s1.blocks[k] in s1.blocks; }
    }
  }

  lemma PagesEnough(n: nat)
    ensures n + 32 + 4095 < WORD ==> PagesFor(n) * 4096 >= n + 32
  {
    if n + 32 + 4095 < WORD {
      assert (n + 32) % 0x1_0000_0000_0000_0000 == n + 32;
      assert (n + 32 + 4095) % 0x1_0000_0000_0000_0000 == n + 32 + 4095;
      var p := (n + 32 + 4095) / 4096;
      assert p * 4096 >= n + 32;
    }
  }

  // ---------------------------------------------------------------------
  // Which requests are served, and by what
  // ---------------------------------------------------------------------

  /** Block i is the first free one of at least n bytes. */
  ghost predicate ServesFirst(bs: seq<Block>, n: nat, i: nat) {
    i < |bs| && bs[i].free && bs[i].size >= n && forall k :: 0 <= k < i ==> !(bs[k].free && bs[k].size >= n)
  }

  /**
   Block i has been handed out for n bytes and the others are as they were. With more than
   64 bytes to spare it has been cut to size, and what is left over is a free block.
   */
  ghost predicate CutFor(bs: seq<Block>, i: nat, n: nat, bs': seq<Block>)
    requires i < |bs| && n <= bs[i].size
  {
    var b := bs[i];
    if b.size > n + 64 then
      && |bs'| == |bs| + 1 && bs'[..i] == bs[..i] && bs'[i + 2..] == bs[i + 1..]
      && bs'[i] == Block(b.addr, n, false) && bs'[i + 1] == Block(b.addr + 32 + n, b.size - n - 32, true)
    else bs' == bs[i := Block(b.addr, b.size, false)]
  }

  lemma CarveCuts(bs: seq<Block>, i: nat, n: nat)
    requires i < |bs| && n <= bs[i].size
    ensures CutFor(bs, i, n, Carve(bs, i, n))
  {
  }

  lemma FirstIs(bs: seq<Block>, n: nat, i: nat)
    requires ServesFirst(bs, n, i)
    ensures FirstFit(bs, n) == i
  {
    assert Fits(bs[i], n) && forall k :: 0 <= k < i ==> !Fits(bs[k], n);
  }

  /** A request that a block fits is served, from the first such block, and the heap does not grow. */
  lemma KmallocServes(s: State, size: nat, grant1: Option<nat>, grant2: Option<nat>, i: nat)
    requires 0 < size <= WORD - 16 && ServesFirst(s.blocks, AlignUp(size), i)
    ensures var r := Kmalloc(s, size, grant1, grant2);
      r.1 == s.blocks[i].addr + 32 && r.0.regions == s.regions && CutFor(s.blocks, i, AlignUp(size), r.0.blocks)
  {
    FirstIs(s.blocks, AlignUp(size), i);
    CarveCuts(s.blocks, i, AlignUp(size));
  }

  /** How many pages a heap grows by for n bytes and a header: as many as they take up, at least 64. */
  ghost predicate PagesOf(n: nat, pages: nat) {
    64 <= pages && n + 32 <= pages * 4096 && (pages > 64 ==> (pages - 1) * 4096 < n + 32)
  }

  lemma PagesForIs(n: nat)
    requires n + 32 + 4095 < WORD
    ensures PagesOf(n, PagesFor(n))
  {
    assert (n + 32) % 0x1_0000_0000_0000_0000 == n + 32;
    assert (n + 32 + 4095) % 0x1_0000_0000_0000_0000 == n + 32 + 4095;
  }

  /** A request that no block fits is served from the pages it is granted, one new region. */
  lemma KmallocGrows(s: State, size: nat, va: nat, grant2: Option<nat>)
    requires 0 < size <= WORD - 16 && FirstFit(s.blocks, AlignUp(size)) == |s.blocks|
    requires |s.regions| < MAX_REGIONS && AlignUp(size) + 32 + 4095 < WORD
    ensures var r, n, pages := Kmalloc(s, size, Some(va), grant2), AlignUp(size), PagesFor(AlignUp(size));
      && r.1 == va + 32 && PagesOf(n, pages) && r.0.regions == s.regions + [Region(va, pages * 4096)]
      && CutFor(s.blocks + [Block(va, pages * 4096 - 32, true)], |s.blocks|, n, r.0.blocks)
  {
    var n, pages := AlignUp(size), PagesFor(AlignUp(size));
    PagesForIs(n);
    var bs := s.blocks + [Block(va, pages * 4096 - 32, true)];
    forall k | 0 <= k < |s.blocks| ensures !(bs[k].free && bs[k].size >= n) { assert !Fits(s.blocks[k], n); }
    FirstIs(bs, n, |s.blocks|);
    CarveCuts(bs, |s.blocks|, n);
  }

  /** A request can be served: a block fits it, or the heap may grow and the sum stays within 64 bits. */
  ghost predicate CanServe(s: State, size: nat, granted: bool) {
    0 < size <= WORD - 16 && (OneFits(s.blocks, AlignUp(size)) || (granted && CanGrow(s.regions, AlignUp(size))))
  }

  ghost predicate OneFits(bs: seq<Block>, n: nat) { exists k :: 0 <= k < |bs| && bs[k].free && bs[k].size >= n }

  ghost predicate CanGrow(rs: seq<Region>, n: nat) { |rs| < 16 && n + 32 + 4095 < WORD }

  /** kmalloc returns a block exactly when the request can be served. */
  lemma KmallocIff(s: State, size: nat, grant1: Option<nat>, grant2: Option<nat>)
    requires Inv(s) && GrantedBoth(s, size, grant1, grant2)
    ensures Kmalloc(s, size, grant1, grant2).1 != 0 <==> CanServe(s, size, grant1.Some?)
  {
    var n := AlignUp(size);
    var i := FirstFit(s.blocks, n);
    if 0 < size <= WORD - 16 {
      if i < |s.blocks| {
        assert s.blocks[i].free && s.blocks[i].size >= n;
      } else {
        forall k | 0 <= k < |s.blocks| ensures !(s.blocks[k].free && s.blocks[k].size >= n) {
          assert !Fits(s.blocks[k], n);
        }
        if grant1.Some? && |s.regions| < MAX_REGIONS { ServedAfterGrowthIff(s, size, grant1.value, grant2); }
      }
    }
  }

  // ---------------------------------------------------------------------
  // What the counters show
  // ---------------------------------------------------------------------

  lemma {:induction false} CountsConcat(x: seq<Block>, y: seq<Block>)
    ensures Used(x + y) == Used(x) + Used(y) && Free(x + y) == Free(x) + Free(y)
  {
    if x == [] { assert x + y == y; } else { CountsConcat(x[1..], y); assert (x + y)[1..] == x[1..] + y; }
  }

  lemma CountsOne(b: Block)
    ensures Used([b]) == (if b.free then 0 else b.size) && Free([b]) == if b.free then b.size else 0
  {
    assert [b][1..] == [];
  }

  lemma CountsAround(bs: seq<Block>, i: nat, mid: seq<Block>)
    requires i < |bs|
    ensures Used(bs[..i] + (mid + bs[i + 1..])) == Used(bs) - Used([bs[i]]) + Used(mid)
    ensures Free(bs[..i] + (mid + bs[i + 1..])) == Free(bs) - Free([bs[i]]) + Free(mid)
  {
    Around(bs, i);
    CountsConcat(bs[..i], [bs[i]] + bs[i + 1..]);
    CountsConcat([bs[i]], bs[i + 1..]);
    CountsConcat(bs[..i], mid + bs[i + 1..]);
    CountsConcat(mid, bs[i + 1..]);
  }

  /** An allocation adds its block to the used bytes and takes it, and the header if it cut one, off the free ones. */
  lemma KmallocCounts(s: State, size: nat, grant1: Option<nat>, grant2: Option<nat>, i: nat)
    requires 0 < size <= WORD - 16 && ServesFirst(s.blocks, AlignUp(size), i)
    ensures var r, n, b := Kmalloc(s, size, grant1, grant2), AlignUp(size), s.blocks[i];
      && Used(r.0.blocks) == Used(s.blocks) + (if b.size > n + 64 then n else b.size)
      && Free(r.0.blocks) == Free(s.blocks) - (if b.size > n + 64 then n + 32 else b.size)
  {
    var n, b := AlignUp(size), s.blocks[i];
    FirstIs(s.blocks, n, i);
    var mid := Carved(b, n);
    CountsAround(s.blocks, i, mid);
    CountsOne(b);
    CountsOne(mid[0]);
    if b.size > n + 64 {
      CountsOne(mid[1]);
      CountsConcat([mid[0]], [mid[1]]);
      assert mid == [mid[0]] + [mid[1]];
    } else {
      assert mid == [mid[0]];
    }
  }

  lemma {:induction false} UsedLive(bs: seq<Block>)
    ensures Used(bs) == Used(Live(bs))
  {
    if bs != [] {
      UsedLive(bs[1..]);
      CountsOne(bs[0]);
      CountsConcat(if bs[0].free then [] else [bs[0]], Live(bs[1..]));
    }
  }

  /** Freeing a block takes its size off the used bytes. */
  lemma KfreeCounts(s: State, i: nat, forged: bool)
    requires Inv(s) && i < |s.blocks| && !s.blocks[i].free
    ensures Used(Kfree(s, Payload(s.blocks[i]), forged).blocks) == Used(s.blocks) - s.blocks[i].size
  {
    var b := s.blocks[i];
    var freed := s.blocks[i := b.(free := true)];
    FreeLast(s, i, forged);
    CoalesceLive(freed);
    UsedLive(freed);
    UsedLive(Coalesce(freed));
    CountsAround(s.blocks, i, [b.(free := true)]);
    assert freed == s.blocks[..i] + ([b.(free := true)] + s.blocks[i + 1..]);
    CountsOne(b);
    CountsOne(b.(free := true));
  }

  /**
   It happens, on any heap with a region to spare that is granted pages: the largest
   request that passes the overflow check fits no block, adds 64 pages, and fails.
   */
  lemma HugeRequestGrowsLittle(s: State, va: nat)
    requires Inv(s) && |s.regions| < MAX_REGIONS && GrantedBoth(s, WORD - 16, Some(va), None)
    ensures var r := Kmalloc(s, WORD - 16, Some(va), None);
      r.1 == 0 && r.0.regions == s.regions + [Region(va, MIN_PAGES * 4096)]
  {
    var n := AlignUp(WORD - 16);
    assert n == WORD - 16 && PagesFor(n) == MIN_PAGES;
    forall k | 0 <= k < |s.blocks| ensures !Fits(s.blocks[k], n) { assert s.blocks[k] in s.blocks; }
    ServedAfterGrowthIff(s, WORD - 16, va, None);
  }

  // ---------------------------------------------------------------------
  // Whole runs
  // ---------------------------------------------------------------------

  datatype Op = Alloc(size: nat, grant1: Option<nat>, grant2: Option<nat>) | Release(ptr: nat, forged: bool)

  ghost predicate Legal(s: State, op: Op) {
    match op
    case Alloc(size, g1, g2) => GrantedBoth(s, size, g1, g2)
    case Release(ptr, forged) => ptr < WORD
  }

  /** The heap and the pointers its callers hold: returned by kmalloc, not yet passed to kfree. */
  ghost function Apply(s: State, held: set<nat>, op: Op): (r: (State, set<nat>)) {
    match op
    case Alloc(size, g1, g2) =>
      var r := Kmalloc(s, size, g1, g2);
      (r.0, if r.1 == 0 then held else held + {r.1})
    case Release(ptr, forged) => (Kfree(s, ptr, forged), held - {ptr})
  }

  ghost function Run(s: State, held: set<nat>, ops: seq<Op>): (r: (State, set<nat>))
    decreases |ops|
  {
    if ops == [] then (s, held) else
      var r := Apply(s, held, ops[0]);
      Run(r.0, r.1, ops[1..])
  }

  ghost predicate LegalRun(s: State, held: set<nat>, ops: seq<Op>)
    decreases |ops|
  {
    ops != [] ==> Legal(s, ops[0]) && LegalRun(Apply(s, held, ops[0]).0, Apply(s, held, ops[0]).1, ops[1..])
  }

  /** heap_init. */
  function Fresh(va: nat): (s: State) {
    State([Block(va, 0x10_0000 - 32, true)], [Region(va, 0x10_0000)])
  }

  /** A pointer is held exactly while a block in use has it as its payload. */
  ghost predicate Agrees(s: State, held: set<nat>) {
    && (forall b :: InUse(s.blocks, b) ==> Payload(b) in held)
    && (forall p :: p in held ==> exists b :: InUse(s.blocks, b) && Payload(b) == p)
  }

  lemma FreshInv(va: nat)
    requires 4096 <= va && va % 4096 == 0 && va + 0x10_0000 < WORD
    ensures Inv(Fresh(va)) && Agrees(Fresh(va), {})
  {
    var s := Fresh(va);
    var b, r := s.blocks[0], s.regions[0];
    PageAligned(va, 1);
    assert s.blocks[1..] == [] && s.regions[..0] == [];
    forall a: nat ensures Covered(s.blocks, a) <==> InRegion(s.regions, a) {
      RegionConcat([], r, a);
      assert [] + [r] == s.regions;
    }
  }

  lemma AllocAgrees(s: State, held: set<nat>, size: nat, g1: Option<nat>, g2: Option<nat>)
    requires Inv(s) && Agrees(s, held) && GrantedBoth(s, size, g1, g2)
    ensures var r := Apply(s, held, Alloc(size, g1, g2)); Inv(r.0) && Agrees(r.0, r.1)
  {
    KmallocInv(s, size, g1, g2);
    var b := KmallocGives(s, size, g1, g2);
    var r := Apply(s, held, Alloc(size, g1, g2));
    forall p | p in r.1 ensures exists c :: InUse(r.0.blocks, c) && Payload(c) == p {
      if p in held {
        var c :| InUse(s.blocks, c) && Payload(c) == p;
        assert InUse(r.0.blocks, c);
      } else {
        assert InUse(r.0.blocks, b);
      }
    }
  }

  lemma ReleaseAgrees(s: State, held: set<nat>, ptr: nat, forged: bool)
    requires Inv(s) && Agrees(s, held) && ptr < WORD
    ensures var r := Apply(s, held, Release(ptr, forged)); Inv(r.0) && Agrees(r.0, r.1)
  {
    KfreeInv(s, ptr, forged);
    var s' := Kfree(s, ptr, forged);
    if ptr in held {
      var b :| InUse(s.blocks, b) && Payload(b) == ptr;
      KfreeTakes(s, b, forged);
      forall c | InUse(s'.blocks, c) ensures Payload(c) in held - {ptr} { ApartPair(s.blocks, b, c); }
      forall p | p in held - {ptr} ensures exists c :: InUse(s'.blocks, c) && Payload(c) == p {
        var c :| InUse(s.blocks, c) && Payload(c) == p;
        assert InUse(s'.blocks, c);
      }
    } else {
      KfreeRefuses(s, ptr, forged);
      forall p | p in held ensures exists c :: InUse(s'.blocks, c) && Payload(c) == p {
        var c :| InUse(s.blocks, c) && Payload(c) == p;
        assert InUse(s'.blocks, c);
      }
    }
  }

  lemma {:induction false} RunAgrees(s: State, held: set<nat>, ops: seq<Op>)
    requires Inv(s) && Agrees(s, held) && LegalRun(s, held, ops)
    ensures var r := Run(s, held, ops); Inv(r.0) && Agrees(r.0, r.1)
    decreases |ops|
  {
    if ops != [] {
      match ops[0] {
        case Alloc(size, g1, g2) => AllocAgrees(s, held, size, g1, g2);
        case Release(ptr, forged) => ReleaseAgrees(s, held, ptr, forged);
      }
      var r := Apply(s, held, ops[0]);
      RunAgrees(r.0, r.1, ops[1..]);
    }
  }

  /**
   After every run, good frees and bad: the blocks tile the regions; used, free and
   header bytes add up to the total; and the blocks in use are exactly those whose
   pointers are held, so no two held pointers share a byte.
   */
  lemma EveryRun(va: nat, ops: seq<Op>)
    requires 4096 <= va && va % 4096 == 0 && va + 0x10_0000 < WORD && LegalRun(Fresh(va), {}, ops)
    ensures var r := Run(Fresh(va), {}, ops);
      && Inv(r.0) && Agrees(r.0, r.1)
      && Used(r.0.blocks) + Free(r.0.blocks) + 32 * |r.0.blocks| == Total(r.0.regions)
      && (forall b, c :: InUse(r.0.blocks, b) && InUse(r.0.blocks, c) && b != c ==> Disjoint(b, c))
  {
    FreshInv(va);
    RunAgrees(Fresh(va), {}, ops);
    var s := Run(Fresh(va), {}, ops).0;
    BytesSplit(s.blocks);
    forall b, c | InUse(s.blocks, b) && InUse(s.blocks, c) && b != c
      ensures Disjoint(b, c)
    {
      ApartPair(s.blocks, b, c);
    }
  }
}
