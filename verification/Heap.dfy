/**
 The kernel heap: a list of blocks, each a 32-byte header and a payload, laid over
 regions obtained from the page allocator. First fit, splitting, and merging of
 touching free blocks. Sizes and addresses are 64-bit.
 */
module Heap {
  import opened Common

  datatype Block = Block(addr: nat, size: nat, free: bool)

  datatype Region = Region(start: nat, bytes: nat)

  datatype State = State(blocks: seq<Block>, regions: seq<Region>)

  const MAX_REGIONS: nat := 16
  const MIN_PAGES: nat := 64
  const WORD: nat := 0x1_0000_0000_0000_0000

  /** Just past a block. */
  function End(b: Block): (a: nat) { b.addr + 32 + b.size }

  function Payload(b: Block): (a: nat) { b.addr + 32 }

  function AlignUp(n: nat): (r: nat)
    ensures r % 16 == 0 && n <= r < n + 16
  {
    (n + 15) / 16 * 16
  }

  // ---------------------------------------------------------------------
  // Operations
  // ---------------------------------------------------------------------

  predicate Fits(b: Block, n: nat) { b.free && b.size >= n }

  /** The first block that fits, or the length of the list. */
  function FirstFit(bs: seq<Block>, n: nat): (i: nat)
    ensures i <= |bs| && (i < |bs| ==> Fits(bs[i], n)) && forall k :: 0 <= k < i ==> !Fits(bs[k], n)
  {
    if bs == [] || Fits(bs[0], n) then 0 else 1 + FirstFit(bs[1..], n)
  }

  /** What becomes of a block that serves a request: itself, or the request and the free remainder. */
  function Carved(b: Block, n: nat): (r: seq<Block>)
    requires n <= b.size
  {
    if b.size - n > 64 then [Block(b.addr, n, false), Block(b.addr + 32 + n, b.size - n - 32, true)]
    else [b.(free := false)]
  }

  function Carve(bs: seq<Block>, i: nat, n: nat): (r: seq<Block>)
    requires i < |bs| && n <= bs[i].size
  {
    bs[..i] + (Carved(bs[i], n) + bs[i + 1..])
  }

  /** How many pages an expansion asks for, in 64-bit arithmetic. */
  function PagesFor(need: nat): (p: nat)
    ensures p > 0
  {
    var p := (need + 32) % 0x1_0000_0000_0000_0000;
    var p := (p + 4095) % 0x1_0000_0000_0000_0000 / 4096;
    if p < MIN_PAGES then MIN_PAGES else p
  }

  /** heap_expand, given what the page allocator answers; the pages go back when the region table is full. */
  function Expand(s: State, need: nat, grant: Option<nat>): (r: Option<State>) {
    ExpandBy(s, PagesFor(need), grant)
  }

  function ExpandBy(s: State, pages: nat, grant: Option<nat>): (r: Option<State>)
    requires pages > 0
  {
    if grant.None? || |s.regions| >= MAX_REGIONS then None else
      Some(State(s.blocks + [Block(grant.value, pages * 4096 - 32, true)],
                 s.regions + [Region(grant.value, pages * 4096)]))
  }

  /** kmalloc: the new state and the payload address, 0 for none. */
  function Kmalloc(s: State, size: nat, grant1: Option<nat>, grant2: Option<nat>): (r: (State, nat)) {
    if size == 0 || size > WORD - 16 then (s, 0) else
      var n := AlignUp(size);
      var i := FirstFit(s.blocks, n);
      if i < |s.blocks| then (s.(blocks := Carve(s.blocks, i, n)), Payload(s.blocks[i])) else
        match Expand(s, n, grant1)
        case None => (s, 0)
        case Some(s1) =>
          var j := FirstFit(s1.blocks, n);
          if j < |s1.blocks| then (s1.(blocks := Carve(s1.blocks, j, n)), Payload(s1.blocks[j])) else
            match Expand(s1, n, grant2)
            case None => (s1, 0)
            case Some(s2) => (s2, 0)
  }

  predicate Mergeable(a: Block, b: Block) { a.free && b.free && End(a) == b.addr }

  function Merge(a: Block, b: Block): (c: Block) { a.(size := a.size + 32 + b.size) }

  /** The walk after a free: a block swallows the free blocks that touch it, one by one. */
  function Coalesce(bs: seq<Block>): (r: seq<Block>)
    decreases |bs|
  {
    if |bs| < 2 then bs
    else if Mergeable(bs[0], bs[1]) then Coalesce([Merge(bs[0], bs[1])] + bs[2..])
    else [bs[0]] + Coalesce(bs[1..])
  }

  predicate InRegion(rs: seq<Region>, a: nat) {
    exists i :: 0 <= i < |rs| && rs[i].start <= a < rs[i].start + rs[i].bytes
  }

  function BlockAt(bs: seq<Block>, a: nat): (i: nat)
    ensures i <= |bs| && (i < |bs| ==> bs[i].addr == a) && forall k :: 0 <= k < i ==> bs[k].addr != a
  {
    if bs == [] || bs[0].addr == a then 0 else 1 + BlockAt(bs[1..], a)
  }

  /**
   kfree. `forged` says whether the bytes in front of the pointer, when no block
   starts there, pass for the header of a block in use.
   */
  function Kfree(s: State, ptr: nat, forged: bool): (s': State) {
    var a := (ptr + WORD - 32) % WORD;
    if ptr == 0 || !InRegion(s.regions, a) then s else
      var i := BlockAt(s.blocks, a);
      if i < |s.blocks| then
        if s.blocks[i].free then s else s.(blocks := Coalesce(s.blocks[i := s.blocks[i].(free := true)]))
      else if forged then s.(blocks := Coalesce(s.blocks)) else s
  }

  // ---------------------------------------------------------------------
  // What is always true of the list
  // ---------------------------------------------------------------------

  ghost predicate BlockOk(b: Block) {
    4096 <= b.addr && b.addr % 16 == 0 && b.size % 16 == 0 && End(b) < WORD
  }

  ghost predicate AllOk(bs: seq<Block>) { forall b :: b in bs ==> BlockOk(b) }

  /** The two do not overlap, headers included. */
  ghost predicate Disjoint(a: Block, b: Block) { End(a) <= b.addr || End(b) <= a.addr }

  ghost predicate FromAll(a: Block, bs: seq<Block>) { forall b :: b in bs ==> Disjoint(a, b) }

  ghost predicate Apart(bs: seq<Block>) {
    bs != [] ==> FromAll(bs[0], bs[1..]) && Apart(bs[1..])
  }

  /** Whether address a lies in one of the blocks. */
  ghost predicate Covered(bs: seq<Block>, a: nat) {
    bs != [] && (bs[0].addr <= a < End(bs[0]) || Covered(bs[1..], a))
  }

  /** Everything the blocks take up. */
  function Bytes(bs: seq<Block>): (n: nat) {
    if bs == [] then 0 else 32 + bs[0].size + Bytes(bs[1..])
  }

  /** heap_used_bytes, heap_free_bytes, heap_total_bytes. */
  function Used(bs: seq<Block>): (n: nat) {
    if bs == [] then 0 else (if bs[0].free then 0 else bs[0].size) + Used(bs[1..])
  }

  function Free(bs: seq<Block>): (n: nat) {
    if bs == [] then 0 else (if bs[0].free then bs[0].size else 0) + Free(bs[1..])
  }

  function Total(rs: seq<Region>): (n: nat) {
    if rs == [] then 0 else Total(rs[..|rs| - 1]) + rs[|rs| - 1].bytes
  }

  lemma {:induction false} BytesSplit(bs: seq<Block>)
    ensures Used(bs) + Free(bs) + 32 * |bs| == Bytes(bs)
  {
    if bs != [] { BytesSplit(bs[1..]); }
  }

  /** The blocks tile the regions: they do not overlap, and they cover exactly what the regions do. */
  ghost predicate Inv(s: State) {
    && s.blocks != [] && |s.regions| <= MAX_REGIONS
    && AllOk(s.blocks) && Apart(s.blocks)
    && (forall a: nat :: Covered(s.blocks, a) <==> InRegion(s.regions, a))
    && Bytes(s.blocks) == Total(s.regions)
  }

  /** A stretch of the list can be replaced by one that takes up the same space. */
  ghost predicate SameSpace(x: seq<Block>, y: seq<Block>) {
    && AllOk(y) && Apart(y) && Bytes(x) == Bytes(y)
    && (forall a: nat :: Covered(x, a) <==> Covered(y, a))
    && (forall b :: BlockOk(b) && FromAll(b, x) ==> FromAll(b, y))
  }

  lemma {:induction false} BytesConcat(x: seq<Block>, y: seq<Block>)
    ensures Bytes(x + y) == Bytes(x) + Bytes(y)
  {
    if x == [] { assert x + y == y; } else { BytesConcat(x[1..], y); assert (x + y)[1..] == x[1..] + y; }
  }

  lemma {:induction false} CoveredConcat(x: seq<Block>, y: seq<Block>, a: nat)
    ensures Covered(x + y, a) <==> Covered(x, a) || Covered(y, a)
  {
    if x == [] { assert x + y == y; } else { CoveredConcat(x[1..], y, a); assert (x + y)[1..] == x[1..] + y; }
  }

  lemma FromConcat(b: Block, x: seq<Block>, y: seq<Block>)
    ensures FromAll(b, x + y) <==> FromAll(b, x) && FromAll(b, y)
  {
    assert forall c :: c in x ==> c in x + y;
    assert forall c :: c in y ==> c in x + y;
  }

  ghost predicate Separate(x: seq<Block>, y: seq<Block>) { forall b :: b in x ==> FromAll(b, y) }

  lemma {:induction false} ApartConcat(x: seq<Block>, y: seq<Block>)
    ensures Apart(x + y) <==> Apart(x) && Apart(y) && Separate(x, y)
  {
    if x == [] {
      assert x + y == y;
    } else {
      ApartConcat(x[1..], y);
      assert (x + y)[1..] == x[1..] + y;
      FromConcat(x[0], x[1..], y);
      assert forall b :: b in x <==> b == x[0] || b in x[1..];
    }
  }

  /** Replacing a stretch of the list by another that takes up the same space changes nothing else. */
  lemma Replace(pre: seq<Block>, x: seq<Block>, y: seq<Block>, post: seq<Block>)
    requires AllOk(pre + (x + post)) && Apart(pre + (x + post)) && SameSpace(x, y)
    ensures SameSpace(pre + (x + post), pre + (y + post))
  {
    ReplaceApart(pre, x, y, post);
    BytesConcat(pre, x + post);
    BytesConcat(x, post);
    BytesConcat(pre, y + post);
    BytesConcat(y, post);
    forall a: nat ensures Covered(pre + (x + post), a) <==> Covered(pre + (y + post), a) {
      CoveredConcat(pre, x + post, a);
      CoveredConcat(x, post, a);
      CoveredConcat(pre, y + post, a);
      CoveredConcat(y, post, a);
    }
    forall b | BlockOk(b) && FromAll(b, pre + (x + post)) ensures FromAll(b, pre + (y + post)) {
      FromConcat(b, pre, x + post);
      FromConcat(b, x, post);
      FromConcat(b, pre, y + post);
      FromConcat(b, y, post);
    }
  }

  lemma ReplaceApart(pre: seq<Block>, x: seq<Block>, y: seq<Block>, post: seq<Block>)
    requires AllOk(pre + (x + post)) && Apart(pre + (x + post)) && SameSpace(x, y)
    ensures AllOk(pre + (y + post)) && Apart(pre + (y + post))
  {
    ApartConcat(pre, x + post);
    ApartConcat(x, post);
    ApartConcat(pre, y + post);
    ApartConcat(y, post);
    forall b | b in pre ensures FromAll(b, y + post) {
      assert b in pre + (x + post);
      FromConcat(b, x, post);
      FromConcat(b, y, post);
    }
    forall b | b in post ensures FromAll(b, y) {
      assert b in pre + (x + post);
      forall c | c in x ensures Disjoint(b, c) { assert FromAll(c, post); }
    }
    forall c | c in y ensures FromAll(c, post) {
      forall b | b in post ensures Disjoint(c, b) { assert FromAll(b, y); }
    }
    forall b | b in pre + (y + post) ensures BlockOk(b) {
      if b !in y { assert b in pre + (x + post); }
    }
  }

  /** A carved block takes up the space it did. */
  lemma CarvedSpace(b: Block, n: nat)
    requires BlockOk(b) && n <= b.size && n % 16 == 0
    ensures SameSpace([b], Carved(b, n))
  {
    var y := Carved(b, n);
    if b.size - n > 64 {
      assert y == [y[0], y[1]] && y[1..] == [y[1]] && y[1..][1..] == [];
      assert Bytes(y) == 32 + y[0].size + Bytes(y[1..]);
      MergeCovers(y[0], y[1]);
      SameCover(b, Merge(y[0], y[1]));
    } else {
      assert y == [y[0]];
      SameCover(b, y[0]);
    }
    assert [b][1..] == [];
    forall c | BlockOk(c) && FromAll(c, [b]) ensures FromAll(c, y) { assert b in [b]; }
  }

  lemma MergeSpace(a: Block, b: Block)
    requires BlockOk(a) && BlockOk(b) && End(a) == b.addr
    ensures SameSpace([a, b], [Merge(a, b)])
  {
    assert [a, b][1..] == [b] && [b][1..] == [] && [Merge(a, b)][1..] == [];
    assert Bytes([a, b]) == 32 + a.size + Bytes([b]);
    MergeCovers(a, b);
    forall c | BlockOk(c) && FromAll(c, [a, b]) ensures FromAll(c, [Merge(a, b)]) {
      assert a in [a, b] && b in [a, b];
    }
  }

  lemma SameCover(a: Block, b: Block)
    requires a.addr == b.addr && End(a) == End(b)
    ensures forall x: nat :: Covered([a], x) <==> Covered([b], x)
  {
    assert [a][1..] == [] && [b][1..] == [];
  }

  lemma MergeCovers(a: Block, b: Block)
    requires End(a) == b.addr
    ensures forall x: nat :: Covered([a, b], x) <==> Covered([Merge(a, b)], x)
  {
    assert [a, b][1..] == [b] && [b][1..] == [] && [Merge(a, b)][1..] == [];
    assert forall x: nat :: !Covered([], x);
  }

  lemma SpaceTrans(x: seq<Block>, y: seq<Block>, z: seq<Block>)
    requires SameSpace(x, y) && SameSpace(y, z)
    ensures SameSpace(x, z)
  {
  }

  /** Coalescing keeps the space the blocks take up. */
  lemma {:induction false} CoalesceSpace(bs: seq<Block>)
    requires AllOk(bs) && Apart(bs)
    ensures SameSpace(bs, Coalesce(bs))
    decreases |bs|
  {
    if |bs| < 2 {
    } else if Mergeable(bs[0], bs[1]) {
      var a, b, rest := bs[0], bs[1], bs[2..];
      MergeSpace(a, b);
      assert bs == [] + ([a, b] + rest) && [Merge(a, b)] + rest == [] + ([Merge(a, b)] + rest);
      Replace([], [a, b], [Merge(a, b)], rest);
      CoalesceSpace([Merge(a, b)] + rest);
      SpaceTrans(bs, [Merge(a, b)] + rest, Coalesce(bs));
    } else {
      CoalesceSpace(bs[1..]);
      var x, y := bs[1..], Coalesce(bs[1..]);
      assert bs == [bs[0]] + (x + []) && Coalesce(bs) == [bs[0]] + (y + []);
      Replace([bs[0]], x, y, []);
    }
  }

  /** The blocks in use, in list order. */
  function Live(bs: seq<Block>): (r: seq<Block>) {
    if bs == [] then [] else (if bs[0].free then [] else [bs[0]]) + Live(bs[1..])
  }

  lemma {:induction false} CoalesceLive(bs: seq<Block>)
    ensures Live(Coalesce(bs)) == Live(bs)
    decreases |bs|
  {
    if |bs| < 2 {
    } else if Mergeable(bs[0], bs[1]) {
      var bs' := [Merge(bs[0], bs[1])] + bs[2..];
      CoalesceLive(bs');
      assert bs'[1..] == bs[2..] && bs[1..][1..] == bs[2..];
    } else {
      CoalesceLive(bs[1..]);
    }
  }

  ghost predicate Coalesced(bs: seq<Block>) {
    forall i :: 0 <= i < |bs| - 1 ==> !Mergeable(bs[i], bs[i + 1])
  }

  lemma {:induction false} CoalesceDone(bs: seq<Block>)
    ensures Coalesced(Coalesce(bs)) && (bs != [] ==> Coalesce(bs) != [] && Coalesce(bs)[0].addr == bs[0].addr)
    decreases |bs|
  {
    if |bs| < 2 {
    } else if Mergeable(bs[0], bs[1]) {
      CoalesceDone([Merge(bs[0], bs[1])] + bs[2..]);
    } else {
      CoalesceDone(bs[1..]);
      CoalesceHead(bs[1..]);
    }
  }

  /** The first block stays where it is and keeps its state. */
  lemma {:induction false} CoalesceHead(bs: seq<Block>)
    requires bs != []
    ensures Coalesce(bs) != [] && Coalesce(bs)[0].addr == bs[0].addr && Coalesce(bs)[0].free == bs[0].free
    decreases |bs|
  {
    if |bs| >= 2 && Mergeable(bs[0], bs[1]) { CoalesceHead([Merge(bs[0], bs[1])] + bs[2..]); }
  }

  /** A list is left alone exactly when there is nothing to merge. */
  lemma {:induction false} CoalesceIdleIff(bs: seq<Block>)
    ensures Coalesce(bs) == bs <==> Coalesced(bs)
  {
    CoalesceDone(bs);
    if Coalesced(bs) && |bs| >= 2 {
      assert !Mergeable(bs[0], bs[1]);
      CoalesceIdleIff(bs[1..]);
    }
  }
}
