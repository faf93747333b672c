/** User page tables as the kernel builds, fills and frees them, on frames from the page allocator. */
module Mmu {
  import opened Arith
  import opened Bits
  import opened Pmm
  import opened PageTables

  /** The j-th page of a range. */
  function Nth(va: nat, j: nat): (a: nat) { va + j * 4096 }

  /** The memory of the frames in `keep` is as it was. */
  ghost predicate Untouched(mem: Memory, mem': Memory, start: nat, keep: set<nat>) {
    forall g :: g in keep ==>
      var a := FrameAddr(start, g); (a in mem <==> a in mem') && (a in mem ==> mem[a] == mem'[a])
  }

  lemma UntouchedLess(mem: Memory, mem': Memory, start: nat, keep: set<nat>, less: set<nat>)
    requires Untouched(mem, mem', start, keep) && less <= keep
    ensures Untouched(mem, mem', start, less)
  {
  }

  /** t' has every table of t in the same frame. */
  ghost predicate Extends(t: Tree, t': Tree) {
    forall p :: p in t ==> p in t' && t'[p] == t[p]
  }

  /** The tables on the way to an address, below the root. */
  ghost function Levels(va: nat): (ps: set<seq<nat>>) {
    {[L0Index(va)], [L0Index(va), L1Index(va)], Path(va)}
  }

  /** The tables a range of pages needs. */
  ghost function RangeLevels(va: nat, n: nat): (ps: set<seq<nat>>) {
    if n == 0 then {} else RangeLevels(va, n - 1) + Levels(Nth(va, n - 1))
  }

  /** The tree has grown by these tables at most; by all of them if `whole`. */
  ghost predicate GrownBy(t: Tree, t': Tree, ps: set<seq<nat>>, whole: bool) {
    t.Keys <= t'.Keys <= t.Keys + ps && (whole ==> t'.Keys == t.Keys + ps)
  }

  lemma {:induction false} RangeHolds(va: nat, n: nat, j: nat)
    requires j < n
    ensures Levels(Nth(va, j)) <= RangeLevels(va, n)
  {
    if j < n - 1 { RangeHolds(va, n - 1, j); }
  }

  lemma {:induction false} RangeGrows(va: nat, n: nat, m: nat)
    requires n <= m
    ensures RangeLevels(va, n) <= RangeLevels(va, m)
    decreases m
  {
    if n < m { RangeGrows(va, n, m - 1); }
  }

  lemma NoWay(mem: Memory, start: nat, t: Tree, va: nat, p: seq<nat>, more: seq<nat>)
    requires TreeOk(mem, start, t) && p !in t && p + more == Path(va)
    ensures Path(va) !in t
  {
    NoBelow(mem, start, t, p, more);
  }

  /** How the paths on the way to an address are made up. */
  lemma PathParts(va: nat) returns (p1: seq<nat>, p2: seq<nat>)
    ensures p1 == [L0Index(va)] && p2 == [L0Index(va), L1Index(va)]
    ensures [] + [L0Index(va)] == p1 && p1 + [L1Index(va)] == p2 && p2 + [L2Index(va)] == Path(va)
    ensures p1 + [L1Index(va), L2Index(va)] == Path(va) && Levels(va) == {p1, p2} + {Path(va)}
  {
    p1, p2 := [L0Index(va)], [L0Index(va), L1Index(va)];
  }

  lemma GrownTwice(t: Tree, t1: Tree, t2: Tree, ps: set<seq<nat>>, qs: set<seq<nat>>, all: set<seq<nat>>, whole: bool)
    requires GrownBy(t, t1, ps, true) && GrownBy(t1, t2, qs, whole) && all == ps + qs
    ensures GrownBy(t, t2, all, whole)
  {
  }

  /** After n pages, the tables of one more. */
  lemma GrowsOn(t: Tree, t1: Tree, t2: Tree, va: nat, n: nat, pages: nat, whole: bool)
    requires t1.Keys == t.Keys + RangeLevels(va, n) && GrownBy(t1, t2, Levels(Nth(va, n)), whole) && n < pages
    ensures whole ==> t2.Keys == t.Keys + RangeLevels(va, n + 1)
    ensures t.Keys <= t2.Keys <= t.Keys + RangeLevels(va, pages)
  {
    RangeGrows(va, n + 1, pages);
  }

  /** Every leaf entry reads the same in both. */
  ghost predicate SameLeaves(mem: Memory, t: Tree, mem': Memory, t': Tree, start: nat) {
    forall q, last :: |q| == 3 ==> LeafAt(mem', start, t', q, last) == LeafAt(mem, start, t, q, last)
  }

  lemma FrameAligned(start: nat, f: nat, total: nat)
    requires start % 4096 == 0 && f < total && start + total * 4096 <= 0x1_0000_0000_0000
    ensures Aligned(FrameAddr(start, f))
  {
  }

  /** Hanging a new frame in the tree leaves the frames outside it as they were. */
  lemma NewValue(t: Tree, c: seq<nat>, f: nat, taken: set<nat>)
    requires c !in t && f !in taken
    ensures t[c := f].Values == t.Values + {f}
    ensures (taken + {f}) - t[c := f].Values == taken - t.Values
  {
    var t' := t[c := f];
    forall x | x in t.Values + {f} ensures x in t'.Values {
      if x == f { assert t'[c] == f; } else { var p :| p in t && t[p] == x; assert t'[p] == x; }
    }
  }

  lemma GrowUntouched(mem: Memory, start: nat, t: Tree, p: seq<nat>, i: nat, f: nat, taken: set<nat>)
    requires p in t && i < 512 && TableAt(start, t, p) in mem && |mem[TableAt(start, t, p)]| == 512
    requires f != t[p] && f !in taken
    ensures Untouched(mem, Grown(mem, start, t, p, i, f), start, taken - t.Values)
  {
    assert t[p] in t.Values;
  }

  /** `t` is a tree of tables rooted at l0, in taken frames past the reserved ones. */
  ghost predicate Owned(mem: Memory, start: nat, t: Tree, l0: nat, taken: set<nat>, reserved: nat) {
    && TreeOk(mem, start, t)
    && l0 == TableAt(start, t, [])
    && t.Values <= taken
    && forall f :: f in t.Values ==> reserved <= f
  }

  /** What stays the same when tables are added to a tree. */
  ghost predicate Grew(mem: Memory, t: Tree, taken: set<nat>, mem': Memory, t': Tree, taken': set<nat>, start: nat) {
    && Extends(t, t')
    && SameLeaves(mem, t, mem', t', start)
    && taken' - t'.Values == taken - t.Values
    && Untouched(mem, mem', start, taken - t.Values)
  }

  lemma GrowOwned(mem: Memory, start: nat, t: Tree, l0: nat, taken: set<nat>, reserved: nat, p: seq<nat>, i: nat,
                  f: nat)
    requires Owned(mem, start, t, l0, taken, reserved) && p in t && |p| < 3 && i < 512 && p + [i] !in t
    requires f !in taken && reserved <= f && Aligned(FrameAddr(start, f))
    ensures NodeOk(mem, start, t, p) && f != t[p]
    ensures var mem', t' := Grown(mem, start, t, p, i, f), t[p + [i] := f];
      && Owned(mem', start, t', l0, taken + {f}, reserved)
      && Grew(mem, t, taken, mem', t', taken + {f}, start)
  {
    GrowTree(mem, start, t, p, i, f);
    GrowUntouched(mem, start, t, p, i, f, taken);
    NewValue(t, p + [i], f, taken);
  }

  lemma GrewTrans(mem: Memory, t: Tree, k: set<nat>, mem1: Memory, t1: Tree, k1: set<nat>, mem2: Memory, t2: Tree,
                  k2: set<nat>, start: nat)
    requires Grew(mem, t, k, mem1, t1, k1, start) && Grew(mem1, t1, k1, mem2, t2, k2, start)
    ensures Grew(mem, t, k, mem2, t2, k2, start)
  {
  }

  /** Whether a leaf is the one for page j of a range. */
  ghost predicate Hit(q: seq<nat>, last: nat, va: nat, j: nat) {
    q == Path(Nth(va, j)) && last == L3Index(Nth(va, j))
  }

  /** The first n pages from va are mapped to those from pa, and every other leaf reads as it did. */
  ghost predicate Mapped(mem: Memory, t: Tree, mem': Memory, t': Tree, start: nat, va: nat, pa: nat, flags: nat,
                         n: nat) {
    && (forall j :: 0 <= j < n ==>
        LeafAt(mem', start, t', Path(Nth(va, j)), L3Index(Nth(va, j))) == LeafEntry(Nth(pa, j), flags))
    && (forall q, last :: |q| == 3 && (forall j :: 0 <= j < n ==> !Hit(q, last, va, j)) ==>
        LeafAt(mem', start, t', q, last) == LeafAt(mem, start, t, q, last))
  }

  /** Different pages of a range no longer than the address space use different leaves. */
  lemma DistinctPages(va: nat, j: nat, n: nat)
    requires j < n < 0x10_0000_0000
    ensures !Hit(Path(Nth(va, n)), L3Index(Nth(va, n)), va, j)
  {
    var m := va / 4096;
    AddMultiple(va, j, 4096);
    AddMultiple(va, n, 4096);
    assert Nth(va, j) / 0x1000 == m + j && Nth(va, n) / 0x1000 == m + n;
    ModClose(m + n, m + j, 0x10_0000_0000);
    SameIndicesIff(Nth(va, n), Nth(va, j));
  }

  /** Mapping one more page, after the walk for it has grown the tree. */
  lemma MapOne(mem: Memory, t: Tree, mem1: Memory, t1: Tree, mem2: Memory, t2: Tree, start: nat,
               va: nat, pa: nat, flags: nat, n: nat)
    requires Mapped(mem, t, mem1, t1, start, va, pa, flags, n) && n < 0x10_0000_0000
    requires SameLeaves(mem1, t1, mem2, t2, start) && TreeOk(mem2, start, t2) && Path(Nth(va, n)) in t2
    ensures var p, i := Path(Nth(va, n)), L3Index(Nth(va, n));
      && i < 512 && NodeOk(mem2, start, t2, p)
      && Mapped(mem, t, Poke(mem2, TableAt(start, t2, p), i, LeafEntry(Nth(pa, n), flags)), t2,
                start, va, pa, flags, n + 1)
  {
    var p, i, e := Path(Nth(va, n)), L3Index(Nth(va, n)), LeafEntry(Nth(pa, n), flags);
    Indices(Nth(va, n));
    WriteLeaf(mem2, start, t2, p, i, e);
    var mem' := Poke(mem2, TableAt(start, t2, p), i, e);
    forall j | 0 <= j < n ensures !Hit(p, i, va, j) { DistinctPages(va, j, n); }
    forall j | 0 <= j < n + 1
      ensures LeafAt(mem', start, t2, Path(Nth(va, j)), L3Index(Nth(va, j))) == LeafEntry(Nth(pa, j), flags)
    {
      if j < n { assert !Hit(p, i, va, j); }
    }
    forall q, last | |q| == 3 && (forall j :: 0 <= j < n + 1 ==> !Hit(q, last, va, j))
      ensures LeafAt(mem', start, t2, q, last) == LeafAt(mem, start, t, q, last)
    {
      assert !Hit(q, last, va, n);
    }
  }

  /** Writing a leaf keeps the space and touches no frame outside it. */
  lemma WriteOwned(mem: Memory, start: nat, t: Tree, l0: nat, taken: set<nat>, reserved: nat, p: seq<nat>, i: nat,
                   e: nat)
    requires Owned(mem, start, t, l0, taken, reserved) && p in t && |p| == 3 && i < 512
    ensures NodeOk(mem, start, t, p)
    ensures var mem' := Poke(mem, TableAt(start, t, p), i, e);
      && Owned(mem', start, t, l0, taken, reserved)
      && Untouched(mem, mem', start, taken - t.Values)
  {
    WriteLeaf(mem, start, t, p, i, e);
    assert t[p] in t.Values;
  }

  /** How far a range has been mapped, and what that has left alone. */
  ghost predicate Progress(mem: Memory, t: Tree, taken: set<nat>, mem': Memory, t': Tree, taken': set<nat>, start: nat,
                           va: nat, pa: nat, flags: nat, n: nat)
  {
    && Extends(t, t')
    && Mapped(mem, t, mem', t', start, va, pa, flags, n)
    && taken' - t'.Values == taken - t.Values
    && Untouched(mem, mem', start, taken - t.Values)
  }

  lemma ProgressOne(mem: Memory, t: Tree, k: set<nat>, m1: Memory, t1: Tree, k1: set<nat>, m2: Memory, t2: Tree,
                    k2: set<nat>,
                    start: nat, l0: nat, reserved: nat, va: nat, pa: nat, flags: nat, n: nat)
    requires Progress(mem, t, k, m1, t1, k1, start, va, pa, flags, n) && n < 0x10_0000_0000
    requires Grew(m1, t1, k1, m2, t2, k2, start) && Owned(m2, start, t2, l0, k2, reserved) && Path(Nth(va, n)) in t2
    ensures var p, i := Path(Nth(va, n)), L3Index(Nth(va, n));
      && i < 512 && NodeOk(m2, start, t2, p)
      && var m3 := Poke(m2, TableAt(start, t2, p), i, LeafEntry(Nth(pa, n), flags));
         Owned(m3, start, t2, l0, k2, reserved) && Progress(mem, t, k, m3, t2, k2, start, va, pa, flags, n + 1)
  {
    var p, i, e := Path(Nth(va, n)), L3Index(Nth(va, n)), LeafEntry(Nth(pa, n), flags);
    MapOne(mem, t, m1, t1, m2, t2, start, va, pa, flags, n);
    WriteOwned(m2, start, t2, l0, k2, reserved, p, i, e);
  }

  lemma ProgressGrew(mem: Memory, t: Tree, k: set<nat>, m1: Memory, t1: Tree, k1: set<nat>, m2: Memory, t2: Tree,
                     k2: set<nat>,
                     start: nat, va: nat, pa: nat, flags: nat, n: nat)
    requires Progress(mem, t, k, m1, t1, k1, start, va, pa, flags, n) && Grew(m1, t1, k1, m2, t2, k2, start)
    ensures Progress(mem, t, k, m2, t2, k2, start, va, pa, flags, n)
  {
    Indexes(va);
  }

  lemma Indexes(va: nat)
    ensures forall j: nat :: |Path(Nth(va, j))| == 3
  {
  }

  /** What Mapped says of leaves, said of the hardware's translations. */
  lemma MappedTranslates(mem: Memory, t: Tree, mem': Memory, t': Tree, start: nat, l0: nat, va: nat, pa: nat,
                         flags: nat, n: nat, vb: nat)
    requires TreeOk(mem, start, t) && TreeOk(mem', start, t') && l0 == TableAt(start, t, []) == TableAt(start, t', [])
    requires Mapped(mem, t, mem', t', start, va, pa, flags, n)
    ensures forall j :: 0 <= j < n && Page(Nth(va, j)) == Page(vb) ==>
      Translate(mem', l0, vb) == LeafEntry(Nth(pa, j), flags)
    ensures (forall j :: 0 <= j < n ==> Page(Nth(va, j)) != Page(vb)) ==>
      Translate(mem', l0, vb) == Translate(mem, l0, vb)
  {
    TranslateIs(mem, start, t, vb);
    TranslateIs(mem', start, t', vb);
    forall j | 0 <= j < n ensures Page(Nth(va, j)) == Page(vb) <==> Hit(Path(vb), L3Index(vb), va, j) {
      SameIndicesIff(Nth(va, j), vb);
    }
  }

  /** A lone zeroed frame is an empty tree. */
  lemma RootTree(mem: Memory, start: nat, f: nat, taken: set<nat>, reserved: nat)
    requires var a := FrameAddr(start, f); Aligned(a) && a in mem && mem[a] == Blank()
    requires f in taken && reserved <= f
    ensures var t: Tree := map[[] := f]; Owned(mem, start, t, FrameAddr(start, f), taken, reserved) && t.Values == {f}
  {
    var t: Tree := map[[] := f];
    assert t[[]] == f;
    forall i | 0 <= i < 512 ensures [] + [i] !in t { assert [] + [i] != []; }
  }

  // ---------------------------------------------------------------------
  // The frames under a node
  // ---------------------------------------------------------------------

  /** The frames of the tables at and below p. */
  ghost function Subtree(t: Tree, p: seq<nat>): (s: set<nat>) {
    set q | q in t && p <= q :: t[q]
  }

  /** The frames below entries 0 to i - 1 of p. */
  ghost function SubtreeUpTo(t: Tree, p: seq<nat>, i: nat): (s: set<nat>) {
    set q | q in t && p < q && q[|p|] < i :: t[q]
  }

  lemma SubtreeStep(mem: Memory, start: nat, t: Tree, p: seq<nat>, i: nat)
    requires TreeOk(mem, start, t) && p in t && i < 512
    ensures SubtreeUpTo(t, p, i + 1) == SubtreeUpTo(t, p, i) + Subtree(t, p + [i])
    ensures p + [i] !in t ==> Subtree(t, p + [i]) == {}
    ensures SubtreeUpTo(t, p, i) !! Subtree(t, p + [i])
  {
    var c := p + [i];
    forall q | q in t ensures p < q && q[|p|] == i <==> c <= q {
      if p < q && q[|p|] == i { assert q[..|c|] == c; }
      if c <= q { assert q[..|p|] == c[..|p|] == p; }
    }
    forall q | q in t && c <= q ensures c in t { Above(mem, start, t, c, q); }
  }

  lemma SubtreeWhole(mem: Memory, start: nat, t: Tree, p: seq<nat>)
    requires TreeOk(mem, start, t) && p in t
    ensures |p| == 3 ==> Subtree(t, p) == {t[p]}
    ensures |p| < 3 ==> Subtree(t, p) == SubtreeUpTo(t, p, 512) + {t[p]} && t[p] !in SubtreeUpTo(t, p, 512)
  {
    assert p <= p;
    forall q | q in t && p < q ensures |p| < 3 && q[|p|] < 512 {
      assert NodeOk(mem, start, t, q);
      EntryBound(mem, start, t, q, |p|);
    }
    forall q | q in t && p <= q ensures q == p || p < q { }
  }

  lemma {:induction false} EntryBound(mem: Memory, start: nat, t: Tree, q: seq<nat>, k: nat)
    requires TreeOk(mem, start, t) && q in t && k < |q|
    ensures q[k] < 512
    decreases |q|
  {
    assert NodeOk(mem, start, t, q);
    if k < |q| - 1 { EntryBound(mem, start, t, q[..|q| - 1], k); }
  }

  lemma FreshUntouched(mem: Memory, start: nat, f: nat, keep: set<nat>)
    requires f !in keep
    ensures Untouched(mem, mem[FrameAddr(start, f) := Blank()], start, keep)
  {
  }

  lemma UntouchedTrans(mem: Memory, mem1: Memory, mem2: Memory, start: nat, keep: set<nat>, keep1: set<nat>)
    requires Untouched(mem, mem1, start, keep) && Untouched(mem1, mem2, start, keep1) && keep <= keep1
    ensures Untouched(mem, mem2, start, keep)
  {
  }

  lemma MinusSum(a: set<nat>, b: set<nat>, c: set<nat>, d: set<nat>)
    requires b == c + d
    ensures a - c - d == a - b
  {
  }

  lemma SubtreeInside(t: Tree, p: seq<nat>, i: nat)
    ensures Subtree(t, p + [i]) <= Subtree(t, p)
  {
    forall q | q in t && p + [i] <= q ensures p <= q { assert q[..|p|] == (p + [i])[..|p|] == p; }
  }

  lemma AllBelowRoot(t: Tree)
    ensures Subtree(t, []) == t.Values
  {
    forall q | q in t ensures [] <= q { }
  }

  const SIGTRAMP_VA: nat := 0x0030_0000
  /** PTE_ATTRIDX(1), PTE_AP_RO_EL0 and PTE_PXN. */
  const SIGTRAMP_FLAGS: nat := 0x20_0000_0000_00C4

  /** The address lies on the trampoline's page. */
  ghost predicate OnTrampoline(vb: nat) { Page(SIGTRAMP_VA) == Page(vb) }

  /** User code may read and execute the trampoline and not write it; the kernel does not execute it. */
  ghost predicate Springs(e: nat, pa: nat) {
    && IsValid(e) && NextTable(e) == pa && UserReads(e) && UserExecutes(e) && !UserWrites(e) && !KernelExecutes(e)
  }

  lemma TrampolineSprings(pa: nat)
    requires Aligned(pa)
    ensures Springs(LeafEntry(pa, SIGTRAMP_FLAGS), pa)
  {
    NoAddress(SIGTRAMP_FLAGS);
    LeafEntryFacts(pa, SIGTRAMP_FLAGS);
    TrampolineBit(pa, 6);
    TrampolineBit(pa, 7);
    TrampolineBit(pa, 53);
    TrampolineBit(pa, 54);
  }

  lemma TrampolineBit(pa: nat, k: nat)
    requires k in {6, 7, 53, 54}
    ensures Bit(LeafEntry(pa, SIGTRAMP_FLAGS), k) <==> k in {6, 7, 53}
  {
    LeafBits(pa, SIGTRAMP_FLAGS);
    SigtrampBits(k);
  }

  lemma OnTrampolineIff(vb: nat)
    ensures OnTrampoline(vb) <==> Page(vb) == 0x300
  {
    assert Page(SIGTRAMP_VA) == 0x300;
  }

  lemma Trampolined(mapped: bool, pa: nat, vb: nat, e: nat)
    requires Aligned(pa) && e == if mapped && OnTrampoline(vb) then LeafEntry(pa, SIGTRAMP_FLAGS) else 0
    ensures mapped && OnTrampoline(vb) ==> Springs(e, pa)
  {
    TrampolineSprings(pa);
  }

  lemma SigtrampBits(k: nat)
    ensures Bit(SIGTRAMP_FLAGS, k) <==> k in {2, 6, 7, 53}
  {
    Powers();
    BitSplit(0x20, 0xC4, TOP, k);
    if k < TOP { LowBits(0xC4, k); } else { HighBits(0x20, k - TOP); }
  }

  /** What mapping a range of one page does to an address. */
  /** The address leads to the page just mapped if it is on it, and otherwise where it led before. */
  ghost predicate Lands(mem: Memory, mem': Memory, l0: nat, va: nat, pa: nat, flags: nat, mapped: bool, vb: nat) {
    Translate(mem', l0, vb) ==
      if mapped && Page(va) == Page(vb) then LeafEntry(pa, flags) else Translate(mem, l0, vb)
  }

  ghost predicate AllLand(mem: Memory, mem': Memory, l0: nat, va: nat, pa: nat, flags: nat, mapped: bool) {
    forall vb: nat :: Lands(mem, mem', l0, va, pa, flags, mapped, vb)
  }

  lemma AllStay(mem: Memory, l0: nat, va: nat, pa: nat, flags: nat)
    ensures AllLand(mem, mem, l0, va, pa, flags, false)
  {
    forall vb: nat ensures Lands(mem, mem, l0, va, pa, flags, false, vb) {}
  }

  lemma SetAside(taken: set<nat>, tree: set<nat>, extra: set<nat>)
    requires extra !! taken && tree <= taken
    ensures (taken + extra) - tree == (taken - tree) + extra
  {
  }

  lemma OnePage(mem: Memory, mem': Memory, l0: nat, va: nat, pa: nat, flags: nat, done: nat, vb: nat)
    requires done <= 1
    requires forall j :: 0 <= j < done && Page(Nth(va, j)) == Page(vb) ==>
      Translate(mem', l0, vb) == LeafEntry(Nth(pa, j), flags)
    requires (forall j :: 0 <= j < done ==> Page(Nth(va, j)) != Page(vb)) ==>
      Translate(mem', l0, vb) == Translate(mem, l0, vb)
    ensures Lands(mem, mem', l0, va, pa, flags, done == 1, vb)
  {
    assert Nth(va, 0) == va && Nth(pa, 0) == pa;
    if done == 1 && Page(va) == Page(vb) { assert Page(Nth(va, 0)) == Page(vb); }
  }

  /** A zeroed root maps nothing. */
  lemma EmptyRoot(mem: Memory, l0: nat, vb: nat)
    requires l0 in mem && mem[l0] == Blank()
    ensures Translate(mem, l0, vb) == 0
  {
    TableEntryFacts(0);
    Indices(vb);
  }

  datatype Range = Range(va: nat, pa: nat, pages: nat, flags: nat)

  class Tables {
    const pmm: Allocator
    var mem: Memory
    /** The shared signal-return page, 0 until it is first needed. */
    var sigtramp: nat

    ghost predicate Valid()
      reads this, pmm, pmm.bitmap
    {
      pmm.Valid() && pmm.start + pmm.total * 4096 <= 0x1_0000_0000_0000 && Aligned(sigtramp)
    }

    constructor (pmm: Allocator)
      requires pmm.Valid() && pmm.start + pmm.total * 4096 <= 0x1_0000_0000_0000
      ensures Valid() && this.pmm == pmm && mem == map[] && sigtramp == 0
    {
      this.pmm, mem, sigtramp := pmm, map[], 0;
    }

    /** `t` is the tree of a user address space rooted at l0. */
    ghost predicate Space(l0: nat, t: Tree)
      reads this, pmm
    {
      Owned(mem, pmm.start, t, l0, pmm.taken, pmm.reserved)
    }

    /** A zeroed frame for a table, or 0. */
    method AllocTable() returns (a: nat, ghost f: nat)
      requires Valid()
      modifies this`mem, pmm, pmm.bitmap
      ensures Valid()
      ensures a == 0 ==> mem == old(mem) && pmm.taken == old(pmm.taken) == Below(pmm.total)
      ensures a != 0 ==>
        && a == FrameAddr(pmm.start, f) && pmm.reserved <= f < pmm.total && f !in old(pmm.taken)
        && Aligned(a) && pmm.taken == old(pmm.taken) + {f} && mem == old(mem)[a := Blank()]
    {
      a, f := pmm.AllocatePage();
      if a == 0 {
        return;
      }
      FrameAligned(pmm.start, f, pmm.total);
      mem := mem[a := Blank()];
    }

    /** The table under entry i of the one at p, hung there first if it is missing; 0 if no frame is left. */
    method NextLevel(l0: nat, table: nat, i: nat, ghost p: seq<nat>, ghost t: Tree) returns (next: nat, ghost t': Tree)
      requires Valid() && Space(l0, t) && p in t && |p| < 3 && i < 512 && table == TableAt(pmm.start, t, p)
      modifies this`mem, pmm, pmm.bitmap
      ensures Valid() && Space(l0, t')
      ensures Grew(old(mem), t, old(pmm.taken), mem, t', pmm.taken, pmm.start)
      ensures next == 0 ==> pmm.taken == Below(pmm.total) && p + [i] !in t'
      ensures next != 0 ==> p + [i] in t' && next == TableAt(pmm.start, t', p + [i])
      ensures GrownBy(t, t', {p + [i]}, next != 0)
    {
      EntryTells(mem, pmm.start, t, p, i);
      t' := t;
      if !IsValid(mem[table][i]) {
        ghost var f;
        next, f := AllocTable();
        if next != 0 {
          GrowOwned(old(mem), pmm.start, t, l0, old(pmm.taken), pmm.reserved, p, i, f);
          mem := Poke(mem, table, i, TableEntry(next));
          t' := t[p + [i] := f];
        }
      } else {
        next := NextTable(mem[table][i]);
      }
    }

    /** Walk to the L3 table for va, adding the tables that are missing; 0 if frames run out on the way. */
    method WalkLevels(l0: nat, va: nat, ghost t: Tree) returns (l3: nat, ghost t': Tree)
      requires Valid() && Space(l0, t)
      modifies this`mem, pmm, pmm.bitmap
      ensures Valid() && Space(l0, t')
      ensures Grew(old(mem), t, old(pmm.taken), mem, t', pmm.taken, pmm.start)
      ensures l3 == 0 ==> pmm.taken == Below(pmm.total) && Path(va) !in t'
      ensures l3 != 0 ==> Path(va) in t' && l3 == TableAt(pmm.start, t', Path(va))
      ensures GrownBy(t, t', Levels(va), l3 != 0)
    {
      Indices(va);
      var l2;
      l2, t' := WalkToL2(l0, va, t);
      if l2 == 0 {
        return 0, t';
      }
      ghost var p1, p2 := PathParts(va);
      ghost var m2, t2, k2 := mem, t', pmm.taken;
      l3, t' := NextLevel(l0, l2, L2Index(va), p2, t');
      GrownTwice(t, t2, t', {p1, p2}, {Path(va)}, Levels(va), l3 != 0);
      GrewTrans(old(mem), t, old(pmm.taken), m2, t2, k2, mem, t', pmm.taken, pmm.start);
    }

    method WalkToL2(l0: nat, va: nat, ghost t: Tree) returns (l2: nat, ghost t': Tree)
      requires Valid() && Space(l0, t)
      modifies this`mem, pmm, pmm.bitmap
      ensures Valid() && Space(l0, t')
      ensures Grew(old(mem), t, old(pmm.taken), mem, t', pmm.taken, pmm.start)
      ensures l2 == 0 ==> pmm.taken == Below(pmm.total) && Path(va) !in t'
      ensures var p2 := [L0Index(va), L1Index(va)];
        (l2 != 0 ==> p2 in t' && l2 == TableAt(pmm.start, t', p2)) && GrownBy(t, t', {[L0Index(va)], p2}, l2 != 0)
    {
      Indices(va);
      ghost var p1, p2 := PathParts(va);
      var l1;
      l1, t' := NextLevel(l0, l0, L0Index(va), [], t);
      if l1 == 0 {
        NoWay(mem, pmm.start, t', va, p1, [L1Index(va), L2Index(va)]);
        return 0, t';
      }
      ghost var m1, t1, k1 := mem, t', pmm.taken;
      l2, t' := NextLevel(l0, l1, L1Index(va), p1, t');
      GrownTwice(t, t1, t', {p1}, {p2}, {p1, p2}, l2 != 0);
      GrewTrans(old(mem), t, old(pmm.taken), m1, t1, k1, mem, t', pmm.taken, pmm.start);
      if l2 == 0 { NoWay(mem, pmm.start, t', va, p2, [L2Index(va)]); }
    }

    /**
     Map `pages` pages from va to pa. `done` of them are mapped, all unless frames
     ran out; every other virtual page translates as before.
     */
    method MapUserRange(l0: nat, va: nat, pa: nat, pages: nat, flags: nat, ghost t: Tree)
      returns (done: nat, ghost t': Tree)
      requires Valid() && Space(l0, t) && pages <= 0x10_0000_0000
      modifies this`mem, pmm, pmm.bitmap
      ensures Valid() && Space(l0, t') && Extends(t, t')
      ensures done <= pages && (done < pages ==> pmm.taken == Below(pmm.total))
      ensures forall j, vb :: 0 <= j < done && Page(Nth(va, j)) == Page(vb) ==>
        Translate(mem, l0, vb) == LeafEntry(Nth(pa, j), flags) && Maps(Translate(mem, l0, vb), Nth(pa, j), flags)
      ensures forall vb :: (forall j :: 0 <= j < done ==> Page(Nth(va, j)) != Page(vb)) ==>
        Translate(mem, l0, vb) == old(Translate(mem, l0, vb))
      ensures pmm.taken - t'.Values == old(pmm.taken) - t.Values
      ensures Untouched(old(mem), mem, pmm.start, old(pmm.taken) - t.Values)
      ensures GrownBy(t, t', RangeLevels(va, pages), done == pages)
      ensures done < pages ==> Path(Nth(va, done)) !in t' && Translate(mem, l0, Nth(va, done)) == 0
    {
      done, t' := MapLeaves(l0, va, pa, pages, flags, t);
      if done < pages { TranslateIs(mem, pmm.start, t', Nth(va, done)); }
      forall j: nat ensures Maps(LeafEntry(Nth(pa, j), flags), Nth(pa, j), flags) { LeafBits(Nth(pa, j), flags); }
      forall vb: nat
        ensures forall j :: 0 <= j < done && Page(Nth(va, j)) == Page(vb) ==>
          Translate(mem, l0, vb) == LeafEntry(Nth(pa, j), flags)
        ensures (forall j :: 0 <= j < done ==> Page(Nth(va, j)) != Page(vb)) ==>
          Translate(mem, l0, vb) == old(Translate(mem, l0, vb))
      {
        MappedTranslates(old(mem), t, mem, t', pmm.start, l0, va, pa, flags, done, vb);
      }
    }

    method MapLeaves(l0: nat, va: nat, pa: nat, pages: nat, flags: nat, ghost t: Tree)
      returns (done: nat, ghost t': Tree)
      requires Valid() && Space(l0, t) && pages <= 0x10_0000_0000
      modifies this`mem, pmm, pmm.bitmap
      ensures Valid() && Space(l0, t')
      ensures done <= pages && (done < pages ==> pmm.taken == Below(pmm.total))
      ensures Progress(old(mem), t, old(pmm.taken), mem, t', pmm.taken, pmm.start, va, pa, flags, done)
      ensures GrownBy(t, t', RangeLevels(va, pages), done == pages) && (done < pages ==> Path(Nth(va, done)) !in t')
    {
      done, t' := 0, t;
      while done < pages
        invariant Valid() && Space(l0, t') && done <= pages
        invariant Progress(old(mem), t, old(pmm.taken), mem, t', pmm.taken, pmm.start, va, pa, flags, done)
        invariant t'.Keys == t.Keys + RangeLevels(va, done)
      {
        var ok;
        ghost var t1 := t';
        ok, t' := MapPage(l0, va, pa, flags, done, t', old(mem), t, old(pmm.taken));
        GrowsOn(t, t1, t', va, done, pages, ok);
        if !ok {
          return;
        }
        done := done + 1;
      }
    }

    /** Map page n of a range whose first n pages are mapped; fails only when frames run out. */
    method MapPage(l0: nat, va: nat, pa: nat, flags: nat, n: nat, ghost t: Tree, ghost m0: Memory, ghost t0: Tree,
                   ghost k0: set<nat>)
      returns (ok: bool, ghost t': Tree)
      requires Valid() && Space(l0, t) && n < 0x10_0000_0000
      requires Progress(m0, t0, k0, mem, t, pmm.taken, pmm.start, va, pa, flags, n)
      modifies this`mem, pmm, pmm.bitmap
      ensures Valid() && Space(l0, t')
      ensures !ok ==> pmm.taken == Below(pmm.total) && Path(Nth(va, n)) !in t'
      ensures Progress(m0, t0, k0, mem, t', pmm.taken, pmm.start, va, pa, flags, if ok then n + 1 else n)
      ensures GrownBy(t, t', Levels(Nth(va, n)), ok)
    {
      ghost var m1, k1 := mem, pmm.taken;
      var l3;
      l3, t' := WalkLevels(l0, Nth(va, n), t);
      if l3 == 0 {
        ProgressGrew(m0, t0, k0, m1, t, k1, mem, t', pmm.taken, pmm.start, va, pa, flags, n);
        return false, t';
      }
      ProgressOne(m0, t0, k0, m1, t, k1, mem, t', pmm.taken, pmm.start, l0, pmm.reserved, va, pa, flags, n);
      mem := Poke(mem, l3, L3Index(Nth(va, n)), LeafEntry(Nth(pa, n), flags));
      ok := true;
    }

    /**
     Free the tables below p, then the one at p. Every frame of the subtree is
     released while it is taken, so none is released twice.
     */
    method FreeSubtree(table: nat, level: nat, ghost p: seq<nat>, ghost t: Tree)
      requires Valid() && TreeOk(mem, pmm.start, t) && p in t && |p| == level && table == TableAt(pmm.start, t, p)
      requires Subtree(t, p) <= pmm.taken && forall f :: f in t.Values ==> pmm.reserved <= f
      modifies pmm, pmm.bitmap
      ensures Valid() && pmm.taken == old(pmm.taken) - Subtree(t, p)
      decreases 3 - level
    {
      assert NodeOk(mem, pmm.start, t, p);
      SubtreeWhole(mem, pmm.start, t, p);
      if level < 3 {
        for i := 0 to 512
          invariant Valid() && pmm.taken == old(pmm.taken) - SubtreeUpTo(t, p, i)
        {
          EntryTells(mem, pmm.start, t, p, i);
          SubtreeStep(mem, pmm.start, t, p, i);
          SubtreeInside(t, p, i);
          ghost var child := Subtree(t, p + [i]);
          MinusSum(old(pmm.taken), SubtreeUpTo(t, p, i + 1), SubtreeUpTo(t, p, i), child);
          var e := mem[table][i];
          if IsValid(e) && (level == 0 || IsTable(e)) {
            FreeSubtree(NextTable(e), level + 1, p + [i], t);
          } else {
            assert pmm.taken - child == pmm.taken;
          }
          assert pmm.taken == old(pmm.taken) - SubtreeUpTo(t, p, i) - child;
        }
      }
      assert t[p] in t.Values;
      if level < 3 { MinusSum(old(pmm.taken), Subtree(t, p), SubtreeUpTo(t, p, 512), {t[p]}); }
      ReleaseTable(table, t[p]);
    }

    method ReleaseTable(table: nat, ghost f: nat)
      requires Valid() && f in pmm.taken && pmm.reserved <= f && table == FrameAddr(pmm.start, f)
      modifies pmm, pmm.bitmap
      ensures Valid() && pmm.taken == old(pmm.taken) - {f}
    {
      pmm.FreePage(table);
    }

    /** Free a whole address space: its tables and nothing else. */
    method FreeUserTables(l0: nat, ghost t: Tree)
      requires Valid() && Space(l0, t)
      modifies pmm, pmm.bitmap
      ensures Valid() && pmm.taken == old(pmm.taken) - t.Values
    {
      AllBelowRoot(t);
      FreeSubtree(l0, 0, [], t);
    }

    /** The shared trampoline page, allocated the first time; `extra` is its frame if it is new. */
    method SigtrampPage() returns (page: nat, ghost extra: set<nat>)
      requires Valid()
      modifies this`sigtramp, pmm, pmm.bitmap
      ensures Valid() && page == sigtramp
      ensures pmm.taken == old(pmm.taken) + extra && extra !! old(pmm.taken)
      ensures old(sigtramp) != 0 ==> page == old(sigtramp) && extra == {}
      ensures page == 0 ==> extra == {} && pmm.taken == Below(pmm.total)
    {
      extra := {};
      if sigtramp != 0 {
        return sigtramp, extra;
      }
      ghost var f;
      page, f := pmm.AllocatePage();
      if page == 0 {
        return 0, extra;
      }
      FrameAligned(pmm.start, f, pmm.total);
      sigtramp := page;
      extra := {f};
    }

    /** A new address space holding only the trampoline; 0 and no change when there is no frame for its root. */
    method CreateUserTables() returns (l0: nat, ghost t: Tree, ghost extra: set<nat>, ghost mapped: bool)
      requires Valid()
      modifies this, pmm, pmm.bitmap
      ensures Valid() && extra !! old(pmm.taken) && (old(sigtramp) != 0 ==> extra == {})
      ensures l0 == 0 ==> pmm.taken == old(pmm.taken) && extra == {}
      ensures l0 != 0 ==> Space(l0, t) && pmm.taken - t.Values == old(pmm.taken) + extra
      ensures l0 != 0 ==> forall vb: nat ::
        if mapped && Page(vb) == 0x300 then Springs(Translate(mem, l0, vb), sigtramp) else Translate(mem, l0, vb) == 0
      ensures !mapped ==> pmm.taken == Below(pmm.total)
      ensures Untouched(old(mem), mem, pmm.start, old(pmm.taken))
    {
      extra, t, mapped := {}, map[], false;
      ghost var f;
      l0, f := AllocTable();
      if l0 == 0 {
        return;
      }
      RootTree(mem, pmm.start, f, pmm.taken, pmm.reserved);
      FreshUntouched(old(mem), pmm.start, f, old(pmm.taken));
      ghost var m1, k1 := mem, pmm.taken;
      t, extra, mapped := MapTrampoline(l0, map[[] := f]);
      UntouchedTrans(old(mem), m1, mem, pmm.start, old(pmm.taken), k1 - {f});
      forall vb: nat
        ensures
          if mapped && Page(vb) == 0x300 then Springs(Translate(mem, l0, vb), sigtramp) else Translate(mem, l0, vb) == 0
      {
        EmptyRoot(m1, l0, vb);
        assert Lands(m1, mem, l0, SIGTRAMP_VA, sigtramp, SIGTRAMP_FLAGS, mapped, vb);
        OnTrampolineIff(vb);
        Trampolined(mapped, sigtramp, vb, Translate(mem, l0, vb));
      }
    }

    /** Map the trampoline into a space; the frame of a trampoline built for it lies outside the space. */
    method MapTrampoline(l0: nat, ghost t: Tree) returns (ghost t': Tree, ghost extra: set<nat>, ghost mapped: bool)
      requires Valid() && Space(l0, t)
      modifies this, pmm, pmm.bitmap
      ensures Valid() && Space(l0, t') && extra !! old(pmm.taken) && (old(sigtramp) != 0 ==> extra == {})
      ensures pmm.taken - t'.Values == (old(pmm.taken) - t.Values) + extra
      ensures AllLand(old(mem), mem, l0, SIGTRAMP_VA, sigtramp, SIGTRAMP_FLAGS, mapped)
      ensures !mapped ==> pmm.taken == Below(pmm.total)
      ensures Untouched(old(mem), mem, pmm.start, old(pmm.taken) - t.Values)
    {
      t', mapped := t, false;
      var tramp;
      ghost var k0, m0 := pmm.taken, mem;
      tramp, extra := SigtrampPage();
      ghost var keep := pmm.taken - t.Values;
      SetAside(k0, t.Values, extra);
      if tramp == 0 {
        AllStay(mem, l0, SIGTRAMP_VA, sigtramp, SIGTRAMP_FLAGS);
      } else {
        t', mapped := MapSingle(l0, SIGTRAMP_VA, tramp, SIGTRAMP_FLAGS, t);
        UntouchedLess(m0, mem, pmm.start, keep, k0 - t.Values);
      }
    }

    /** Map a single page. */
    method MapSingle(l0: nat, va: nat, pa: nat, flags: nat, ghost t: Tree) returns (ghost t': Tree, ghost mapped: bool)
      requires Valid() && Space(l0, t)
      modifies this`mem, pmm, pmm.bitmap
      ensures Valid() && Space(l0, t') && pmm.taken - t'.Values == old(pmm.taken) - t.Values
      ensures AllLand(old(mem), mem, l0, va, pa, flags, mapped)
      ensures !mapped ==> pmm.taken == Below(pmm.total)
      ensures Untouched(old(mem), mem, pmm.start, old(pmm.taken) - t.Values)
    {
      var done;
      done, t' := MapUserRange(l0, va, pa, 1, flags, t);
      mapped := done == 1;
      forall vb: nat ensures Lands(old(mem), mem, l0, va, pa, flags, mapped, vb) {
        OnePage(old(mem), mem, l0, va, pa, flags, done, vb);
      }
    }

    /**
     A whole life: create a space, map any ranges whatever happens to each, free it.
     The allocator ends where it began, but for a trampoline page built on the way.
     */
    method Lifecycle(ranges: seq<Range>) returns (ghost extra: set<nat>)
      requires Valid() && forall i :: 0 <= i < |ranges| ==> ranges[i].pages <= 0x10_0000_0000
      modifies this, pmm, pmm.bitmap
      ensures Valid() && pmm.taken == old(pmm.taken) + extra
      ensures extra !! old(pmm.taken) && (old(sigtramp) != 0 ==> extra == {})
      ensures pmm.used == old(pmm.used) + |extra|
    {
      var l0;
      ghost var t, mapped;
      l0, t, extra, mapped := CreateUserTables();
      if l0 == 0 {
        return;
      }
      for i := 0 to |ranges|
        invariant Valid() && Space(l0, t) && pmm.taken - t.Values == old(pmm.taken) + extra
      {
        var done;
        done, t := MapUserRange(l0, ranges[i].va, ranges[i].pa, ranges[i].pages, ranges[i].flags, t);
      }
      FreeUserTables(l0, t);
    }
  }

  /** An entry above L3 is valid exactly when there is a child, and then points at it. */
  lemma EntryTells(mem: Memory, start: nat, t: Tree, p: seq<nat>, i: nat)
    requires TreeOk(mem, start, t) && p in t && |p| < 3 && i < 512
    ensures NodeOk(mem, start, t, p)
    ensures var e := mem[TableAt(start, t, p)][i];
      && (IsValid(e) <==> p + [i] in t)
      && (IsValid(e) ==> IsTable(e) && NextTable(e) == TableAt(start, t, p + [i]))
  {
    assert NodeOk(mem, start, t, p);
    TableEntryFacts(0);
    if p + [i] in t {
      assert NodeOk(mem, start, t, p + [i]);
      TableEntryFacts(TableAt(start, t, p + [i]));
    }
  }
}
