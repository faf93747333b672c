/**
 Four-level page tables as a radix tree in physical memory: the bits of an entry,
 the indices of an address, and the ghost tree that says which frame holds the
 table at each index path.
 */
module PageTables {
  import opened Arith
  import opened Bits
  import opened Pmm

  // ---------------------------------------------------------------------
  // Entries
  // ---------------------------------------------------------------------

  const VALID: nat := 1
  const TABLE: nat := 2
  /** Bits 47 to 12. */
  const ADDR_MASK: nat := 0x0000_FFFF_FFFF_F000
  const LOW: nat := 12
  const TOP: nat := 48
  /** PTE_VALID, PTE_TABLE, PTE_SH_INNER, PTE_AF and PTE_NG together. */
  const LEAF_BITS: nat := 0xF03

  /** An entry that points at a next-level table. */
  function TableEntry(phys: nat): (e: nat) { Or(phys, 3) }

  /** An L3 entry that maps a page. */
  function LeafEntry(pa: nat, flags: nat): (e: nat) { Or(Or(And(pa, ADDR_MASK), LEAF_BITS), flags) }

  predicate IsValid(e: nat) { And(e, VALID) != 0 }

  predicate IsTable(e: nat) { And(e, TABLE) != 0 }

  function NextTable(e: nat): (phys: nat) { And(e, ADDR_MASK) }

  /** What an entry lets user code do, by AP[1], AP[2] and UXN; PXN keeps the kernel from executing it. */
  predicate UserReads(e: nat) { Bit(e, 6) }
  predicate UserWrites(e: nat) { Bit(e, 6) && !Bit(e, 7) }
  predicate UserExecutes(e: nat) { !Bit(e, 54) }
  predicate KernelExecutes(e: nat) { !Bit(e, 53) }

  lemma Powers()
    ensures Pow2(LOW) == 4096 && Pow2(TOP) == 0x1_0000_0000_0000 && ADDR_MASK == Pow2(TOP) - Pow2(LOW)
  {
    assert Pow2(12) == 4096;
    assert Pow2(24) == 0x100_0000 by { Pow2Add(12, 12); }
    assert Pow2(48) == 0x1_0000_0000_0000 by { Pow2Add(24, 24); }
  }

  lemma {:induction false} Pow2Add(j: nat, k: nat)
    ensures Pow2(j + k) == Pow2(j) * Pow2(k)
  {
    if j > 0 { Pow2Add(j - 1, k); }
  }

  lemma Pow2Next(k: nat)
    requires k > 0
    ensures Pow2(k) == 2 * Pow2(k - 1)
  {
  }

  lemma AndMidStep(e: nat, p: nat, q: nat, mask: nat)
    requires 0 < p <= q && mask == 2 * q - 2 * p && And(e / 2, q - p) == e / 2 % q - e / 2 % p
    ensures And(e, mask) == e % (2 * q) - e % (2 * p)
  {
    ModHalf(e, q);
    ModHalf(e, p);
    AndEven(e, q - p);
  }

  /** A mask of bits lo to hi - 1 keeps what is under hi and drops what is under lo. */
  ghost predicate Masks(e: nat, lo: nat, hi: nat) {
    Pow2(lo) <= Pow2(hi) && And(e, Pow2(hi) - Pow2(lo)) == e % Pow2(hi) - e % Pow2(lo)
  }

  lemma {:induction false} AndMid(e: nat, lo: nat, hi: nat)
    requires lo <= hi
    ensures Masks(e, lo, hi)
    decreases lo
  {
    if lo == 0 {
      AndLow(e, hi);
    } else {
      AndMid(e / 2, lo - 1, hi - 1);
      MasksNext(e, lo, hi);
    }
  }

  lemma MasksNext(e: nat, lo: nat, hi: nat)
    requires 0 < lo && 0 < hi && Masks(e / 2, lo - 1, hi - 1)
    ensures Masks(e, lo, hi)
  {
    var p, q := Pow2(lo - 1), Pow2(hi - 1);
    Pow2Next(lo);
    Pow2Next(hi);
    AndMidStep(e, p, q, 2 * q - 2 * p);
  }

  lemma MaskAddr(e: nat)
    ensures NextTable(e) == e % 0x1_0000_0000_0000 - e % 4096
  {
    Powers();
    AndMid(e, LOW, TOP);
  }

  ghost predicate Aligned(a: nat) {
    a % 4096 == 0 && a < 0x1_0000_0000_0000
  }

  lemma AndOne(e: nat)
    ensures And(e, VALID) == e % 2
  {
    if e != 0 { assert And(e / 2, 0) == 0; }
  }

  lemma AndTwo(e: nat)
    ensures And(e, TABLE) == 2 * (e / 2 % 2)
  {
    if e != 0 { AndOne(e / 2); }
  }

  lemma TableEntryIs(a: nat)
    requires Aligned(a)
    ensures TableEntry(a) == a + 3
  {
    Powers();
    OrDisjoint(a / 4096, 3, LOW);
  }

  lemma MaskAligned(a: nat, low: nat)
    requires Aligned(a) && low < 4096
    ensures NextTable(a + low) == a
  {
    var e := a + low;
    MaskAddr(e);
    LowPart(a, low, e);
  }

  lemma LowPart(a: nat, low: nat, e: nat)
    requires Aligned(a) && low < 4096 && e == a + low
    ensures e % 4096 == low && e < 0x1_0000_0000_0000
  {
    var q := a / 4096;
    DivModUnique(e, 4096, q, low);
    assert q < 0x10_0000_0000;
  }

  /** A table entry is valid, is a table, and gives its address back; zero is none of these. */
  lemma TableEntryFacts(a: nat)
    requires Aligned(a)
    ensures IsValid(TableEntry(a)) && IsTable(TableEntry(a)) && NextTable(TableEntry(a)) == a
    ensures !IsValid(0)
  {
    TableEntryIs(a);
    MaskAligned(a, 3);
    AndOne(a + 3);
    AndTwo(a + 3);
    AndOne(0);
  }

  lemma {:induction false} AndOr(a: nat, b: nat, c: nat)
    ensures And(Or(a, b), c) == Or(And(a, c), And(b, c))
  {
    if a != 0 && b != 0 && c != 0 {
      AndOr(a / 2, b / 2, c / 2);
      AndStep(Or(a, b), c);
      OrStep(a, b);
      AndStep(a, c);
      AndStep(b, c);
      OrStep(And(a, c), And(b, c));
    }
  }

  /** A leaf entry maps exactly its page. */
  lemma LeafEntryFacts(pa: nat, flags: nat)
    requires Aligned(pa) && NextTable(flags) == 0
    ensures IsValid(LeafEntry(pa, flags)) && NextTable(LeafEntry(pa, flags)) == pa
    ensures Maps(LeafEntry(pa, flags), pa, flags)
  {
    LeafBits(pa, flags);
    assert Bit(LeafEntry(pa, flags), 0);
    AndOne(LeafEntry(pa, flags));
    LeafMaps(pa, flags);
  }

  lemma LeafMaps(pa: nat, flags: nat)
    requires Aligned(pa) && NextTable(flags) == 0
    ensures NextTable(LeafEntry(pa, flags)) == pa
  {
    MaskedParts(pa);
    OrMasked(pa, LEAF_BITS, flags, ADDR_MASK);
  }

  lemma MaskedParts(pa: nat)
    requires Aligned(pa)
    ensures And(pa, ADDR_MASK) == pa && And(LEAF_BITS, ADDR_MASK) == 0
  {
    MaskAligned(pa, 0);
    MaskAligned(0, LEAF_BITS);
  }

  lemma OrMasked(pa: nat, bits: nat, flags: nat, mask: nat)
    requires And(pa, mask) == pa && And(bits, mask) == 0 && And(flags, mask) == 0
    ensures And(Or(Or(And(pa, mask), bits), flags), mask) == pa
  {
    AndOr(Or(pa, bits), flags, mask);
    AndOr(pa, bits, mask);
  }

  /** An L3 entry bit by bit: the page's address, VALID, TABLE, SH, AF, NG, and the flags. */
  ghost predicate Maps(e: nat, pa: nat, flags: nat) {
    forall k: nat :: Bit(e, k) <==> (12 <= k < 48 && Bit(pa, k)) || k in {0, 1, 8, 9, 10, 11} || Bit(flags, k)
  }

  lemma LeafBits(pa: nat, flags: nat)
    ensures Maps(LeafEntry(pa, flags), pa, flags)
  {
    forall k: nat
      ensures Bit(LeafEntry(pa, flags), k)
        <==> (12 <= k < 48 && Bit(pa, k)) || k in {0, 1, 8, 9, 10, 11} || Bit(flags, k)
    {
      LeafHas(pa, flags, k);
      MaskBits(k);
      FixedBits(k);
    }
  }

  lemma LeafHas(pa: nat, flags: nat, k: nat)
    ensures Bit(LeafEntry(pa, flags), k) <==> (Bit(pa, k) && Bit(ADDR_MASK, k)) || Bit(LEAF_BITS, k) || Bit(flags, k)
  {
    BitAnd(pa, ADDR_MASK, k);
    BitOr(And(pa, ADDR_MASK), LEAF_BITS, k);
    BitOr(Or(And(pa, ADDR_MASK), LEAF_BITS), flags, k);
  }

  lemma MaskBits(k: nat)
    ensures Bit(ADDR_MASK, k) <==> 12 <= k < 48
  {
    Powers();
    BitMid(LOW, TOP, k);
  }

  lemma FixedBits(k: nat)
    ensures Bit(LEAF_BITS, k) <==> k in {0, 1, 8, 9, 10, 11}
  {
    assert Pow2(8) == 256;
    BitSplit(15, 3, 8, k);
    if k < 8 { FirstBits(3, 2, k); } else { FirstBits(15, 4, k - 8); }
  }

  /** The number with the first n bits set. */
  lemma FirstBits(w: nat, n: nat, k: nat)
    requires w + 1 == Pow2(n)
    ensures Bit(w, k) <==> k < n
  {
    if k < n { BitOnes(n, k); } else { BitBeyond(w, n, k); }
  }

  /** A table entry bit by bit: the table's address, VALID and TABLE. */
  lemma TableBits(phys: nat, k: nat)
    ensures Bit(TableEntry(phys), k) <==> Bit(phys, k) || k in {0, 1}
  {
    BitOr(phys, 3, k);
    assert Pow2(2) == 4;
    FirstBits(3, 2, k);
  }

  lemma NoAddress(f: nat)
    requires f % 0x1_0000_0000_0000 < 4096
    ensures NextTable(f) == 0
  {
    MaskAddr(f);
    var q, r := f / 0x1_0000_0000_0000, f % 0x1_0000_0000_0000;
    DivModUnique(f, 4096, q * 0x10_0000_0000, r);
  }

  /** The flags that give user code access: attributes 1 and AP below, PXN and UXN above. */
  lemma LowBits(low: nat, k: nat)
    requires low == 0x44 || low == 0xC4
    ensures Bit(low, k) <==> k in {2, 6} || (k == 7 && low == 0xC4)
  {
    var top := if low == 0x44 then 1 else 3;
    assert Pow2(2) == 4 && Pow2(6) == 64;
    BitSplit(top, 4, 6, k);
    BitPow2(2, k);
    if k >= 6 { OneOrTwo(top, k - 6); }
  }

  lemma HighBits(high: nat, k: nat)
    requires high == 0x20 || high == 0x60
    ensures Bit(high, k) <==> k == 5 || (k == 6 && high == 0x60)
  {
    var top := if high == 0x20 then 1 else 3;
    assert Pow2(5) == 32;
    BitSplit(top, 0, 5, k);
    BitZero(k);
    if k >= 5 { OneOrTwo(top, k - 5); }
  }

  lemma OneOrTwo(w: nat, k: nat)
    requires w == 1 || w == 3
    ensures Bit(w, k) <==> k == 0 || (k == 1 && w == 3)
  {
    assert Pow2(0) == 1 && Pow2(2) == 4;
    if w == 1 { BitPow2(0, k); } else { FirstBits(3, 2, k); }
  }

  // ---------------------------------------------------------------------
  // Addresses
  // ---------------------------------------------------------------------

  function L0Index(va: nat): (i: nat) { And(va / 0x80_0000_0000, 0x1FF) }
  function L1Index(va: nat): (i: nat) { And(va / 0x4000_0000, 0x1FF) }
  function L2Index(va: nat): (i: nat) { And(va / 0x20_0000, 0x1FF) }
  function L3Index(va: nat): (i: nat) { And(va / 0x1000, 0x1FF) }

  lemma Index(x: nat)
    ensures And(x, 0x1FF) == x % 512
  {
    assert Pow2(9) == 512;
    AndLow(x, 9);
  }

  /** The tables a walk for `va` passes through below the root. */
  function Path(va: nat): (p: seq<nat>) {
    [L0Index(va), L1Index(va), L2Index(va)]
  }

  lemma Indices(va: nat)
    ensures L0Index(va) == va / 0x80_0000_0000 % 512 && L1Index(va) == va / 0x4000_0000 % 512
    ensures L2Index(va) == va / 0x20_0000 % 512 && L3Index(va) == va / 0x1000 % 512
  {
    Index(va / 0x80_0000_0000);
    Index(va / 0x4000_0000);
    Index(va / 0x20_0000);
    Index(va / 0x1000);
  }

  /** The 36-bit virtual page number: what the four indices see of an address. */
  function Page(va: nat): (n: nat) { va / 0x1000 % 0x10_0000_0000 }

  lemma Digits(n: nat)
    ensures n % 0x10_0000_0000 ==
      n / 0x800_0000 % 512 * 0x800_0000 + n / 0x4_0000 % 512 * 0x4_0000 + n / 0x200 % 512 * 0x200 + n % 512
  {
    var a := n / 512;
    var b := a / 512;
    var c := b / 512;
    var d := c / 512;
    assert n / 0x4_0000 == b && n / 0x800_0000 == c && n / 0x10_0000_0000 == d;
    assert n == 512 * a + n % 512 && a == 512 * b + a % 512 && b == 512 * c + b % 512 && c == 512 * d + c % 512;
  }

  /** Two addresses share all four indices exactly when they lie on the same page. */
  lemma SameIndicesIff(va: nat, vb: nat)
    ensures Path(va) == Path(vb) && L3Index(va) == L3Index(vb) <==> Page(va) == Page(vb)
  {
    Indices(va);
    Indices(vb);
    var n, m := va / 0x1000, vb / 0x1000;
    Digits(n);
    Digits(m);
    assert va / 0x20_0000 == n / 0x200 && va / 0x4000_0000 == n / 0x4_0000 && va / 0x80_0000_0000 == n / 0x800_0000;
    assert vb / 0x20_0000 == m / 0x200 && vb / 0x4000_0000 == m / 0x4_0000 && vb / 0x80_0000_0000 == m / 0x800_0000;
    if Page(va) == Page(vb) { SameDigits(n, m); }
  }

  lemma SameDigits(n: nat, m: nat)
    requires n % 0x10_0000_0000 == m % 0x10_0000_0000
    ensures n % 512 == m % 512 && n / 0x200 % 512 == m / 0x200 % 512
    ensures n / 0x4_0000 % 512 == m / 0x4_0000 % 512 && n / 0x800_0000 % 512 == m / 0x800_0000 % 512
  {
    Digits(n);
    Digits(m);
    UniqueDigits(n / 0x800_0000 % 512, n / 0x4_0000 % 512, n / 0x200 % 512, n % 512,
                 m / 0x800_0000 % 512, m / 0x4_0000 % 512, m / 0x200 % 512, m % 512);
  }

  lemma UniqueDigits(a: nat, b: nat, c: nat, d: nat, a': nat, b': nat, c': nat, d': nat)
    requires a < 512 && b < 512 && c < 512 && d < 512 && a' < 512 && b' < 512 && c' < 512 && d' < 512
    requires a * 0x800_0000 + b * 0x4_0000 + c * 0x200 + d == a' * 0x800_0000 + b' * 0x4_0000 + c' * 0x200 + d'
    ensures a == a' && b == b' && c == c' && d == d'
  {
  }

  // ---------------------------------------------------------------------
  // Translation and the tree
  // ---------------------------------------------------------------------

  /** Page-table frames by physical address, 512 entries each. */
  type Memory = map<nat, seq<nat>>

  /** What a walk by the hardware finds: the last-level entry, or 0 where a level is missing. */
  function Descend(mem: Memory, table: nat, path: seq<nat>, last: nat): (e: nat)
    decreases |path|
  {
    if table !in mem then 0
    else if path == [] then (if last < |mem[table]| then mem[table][last] else 0)
    else if path[0] >= |mem[table]| || !IsValid(mem[table][path[0]]) then 0
    else Descend(mem, NextTable(mem[table][path[0]]), path[1..], last)
  }

  function Translate(mem: Memory, root: nat, va: nat): (e: nat) {
    Descend(mem, root, Path(va), L3Index(va))
  }

  /** Which frame holds the table at each path of indices; the root is at the empty path. */
  type Tree = map<seq<nat>, nat>

  function TableAt(start: nat, t: Tree, p: seq<nat>): (a: nat)
    requires p in t
  {
    FrameAddr(start, t[p])
  }

  ghost predicate NodeOk(mem: Memory, start: nat, t: Tree, p: seq<nat>)
    requires p in t
  {
    var a := TableAt(start, t, p);
    && |p| <= 3 && Aligned(a) && a in mem && |mem[a]| == 512
    && (p != [] ==> p[..|p| - 1] in t && p[|p| - 1] < 512)
    && (|p| < 3 ==> forall i :: 0 <= i < 512 ==>
        mem[a][i] == if p + [i] in t then TableEntry(TableAt(start, t, p + [i])) else 0)
  }

  ghost predicate Unshared(t: Tree) {
    forall p, q :: p in t && q in t && t[p] == t[q] ==> p == q
  }

  /** The tables are a tree: every frame is reached by one path, every entry above L3 is a child or zero. */
  ghost predicate TreeOk(mem: Memory, start: nat, t: Tree) {
    [] in t && Unshared(t) && forall p :: p in t ==> NodeOk(mem, start, t, p)
  }

  /** The entry at a leaf of the tree. */
  ghost function LeafAt(mem: Memory, start: nat, t: Tree, p: seq<nat>, last: nat): (e: nat) {
    if p in t && TableAt(start, t, p) in mem && last < |mem[TableAt(start, t, p)]|
    then mem[TableAt(start, t, p)][last] else 0
  }

  /** The hardware walk from a node finds what the tree says. */
  lemma {:induction false} DescendIs(mem: Memory, start: nat, t: Tree, p: seq<nat>, path: seq<nat>, last: nat)
    requires TreeOk(mem, start, t) && p in t && |p| + |path| == 3
    requires forall i :: 0 <= i < |path| ==> path[i] < 512
    ensures Descend(mem, TableAt(start, t, p), path, last) == LeafAt(mem, start, t, p + path, last)
    decreases |path|
  {
    assert NodeOk(mem, start, t, p);
    if path == [] {
      assert p + path == p;
    } else {
      var q := p + [path[0]];
      assert q + path[1..] == p + path;
      if q in t {
        assert NodeOk(mem, start, t, q);
        TableEntryFacts(TableAt(start, t, q));
        DescendIs(mem, start, t, q, path[1..], last);
      } else {
        TableEntryFacts(0);
        NoBelow(mem, start, t, q, path[1..]);
      }
    }
  }

  /** A path whose prefix is missing is missing. */
  lemma {:induction false} NoBelow(mem: Memory, start: nat, t: Tree, q: seq<nat>, more: seq<nat>)
    requires TreeOk(mem, start, t) && q !in t
    ensures q + more !in t
    decreases |more|
  {
    if more == [] {
      assert q + more == q;
    } else if q + more in t {
      assert NodeOk(mem, start, t, q + more);
      assert (q + more)[..|q + more| - 1] == q + more[..|more| - 1];
      NoBelow(mem, start, t, q, more[..|more| - 1]);
    }
  }

  /** Every prefix of a path of the tree is one. */
  lemma Above(mem: Memory, start: nat, t: Tree, c: seq<nat>, q: seq<nat>)
    requires TreeOk(mem, start, t) && q in t && c <= q
    ensures c in t
  {
    assert c + q[|c|..] == q;
    if c !in t { NoBelow(mem, start, t, c, q[|c|..]); }
  }

  /** The hardware's translation of an address is the tree's leaf entry for it. */
  lemma TranslateIs(mem: Memory, start: nat, t: Tree, va: nat)
    requires TreeOk(mem, start, t)
    ensures Translate(mem, TableAt(start, t, []), va) == LeafAt(mem, start, t, Path(va), L3Index(va))
  {
    Indices(va);
    DescendIs(mem, start, t, [], Path(va), L3Index(va));
    assert [] + Path(va) == Path(va);
  }

  // ---------------------------------------------------------------------
  // Growing the tree and writing leaves
  // ---------------------------------------------------------------------

  function Blank(): (s: seq<nat>) {
    seq(512, _ => 0)
  }

  function Poke(mem: Memory, a: nat, i: nat, e: nat): (mem': Memory)
    requires a in mem && i < |mem[a]|
  {
    var row: seq<nat> := mem[a][i := e];
    mem[a := row]
  }

  /** Hang a zeroed table in frame f under entry i of the node at p. */
  ghost function Grown(mem: Memory, start: nat, t: Tree, p: seq<nat>, i: nat, f: nat): (mem': Memory)
    requires p in t && i < 512 && TableAt(start, t, p) in mem && |mem[TableAt(start, t, p)]| == 512
    requires f != t[p]
  {
    var a := TableAt(start, t, p);
    Poke(mem[FrameAddr(start, f) := Blank()], a, i, TableEntry(FrameAddr(start, f)))
  }

  /** A new frame hung under a missing child keeps the tree and every leaf entry. */
  lemma GrowTree(mem: Memory, start: nat, t: Tree, p: seq<nat>, i: nat, f: nat)
    requires TreeOk(mem, start, t) && p in t && |p| < 3 && i < 512 && p + [i] !in t
    requires f !in t.Values && Aligned(FrameAddr(start, f))
    ensures NodeOk(mem, start, t, p) && f != t[p]
    ensures TreeOk(Grown(mem, start, t, p, i, f), start, t[p + [i] := f])
    ensures forall q, last :: |q| == 3 ==>
      LeafAt(Grown(mem, start, t, p, i, f), start, t[p + [i] := f], q, last) == LeafAt(mem, start, t, q, last)
  {
    var c := p + [i];
    assert NodeOk(mem, start, t, p);
    assert t[p] in t.Values;
    var mem', t' := Grown(mem, start, t, p, i, f), t[c := f];
    forall q | q in t ensures t[q] != f && TableAt(start, t, q) != FrameAddr(start, f) { assert t[q] in t.Values; }
    forall q | q in t' ensures NodeOk(mem', start, t', q) {
      if q == c {
        assert c[..|c| - 1] == p;
        forall j | 0 <= j < 512 ensures c + [j] !in t' { NoBelow(mem, start, t, c, [j]); }
      } else {
        GrowNode(mem, start, t, p, i, f, q);
      }
    }
  }

  lemma SnocInjective(q: seq<nat>, j: nat, p: seq<nat>, i: nat)
    ensures q + [j] == p + [i] <==> q == p && j == i
  {
    if q + [j] == p + [i] {
      assert q == (q + [j])[..|q|] && p == (p + [i])[..|p|];
      assert (q + [j])[|q|] == j && (p + [i])[|p|] == i;
    }
  }

  lemma GrowNode(mem: Memory, start: nat, t: Tree, p: seq<nat>, i: nat, f: nat, q: seq<nat>)
    requires TreeOk(mem, start, t) && p in t && |p| < 3 && i < 512 && p + [i] !in t
    requires f !in t.Values && Aligned(FrameAddr(start, f)) && q in t && f != t[p] && f != t[q]
    requires NodeOk(mem, start, t, p)
    ensures NodeOk(Grown(mem, start, t, p, i, f), start, t[p + [i] := f], q)
  {
    assert NodeOk(mem, start, t, q);
    forall j: nat ensures q + [j] == p + [i] <==> q == p && j == i { SnocInjective(q, j, p, i); }
    if q != p { assert t[q] != t[p]; }
  }

  /** Writing an entry of an L3 table changes that leaf and nothing else. */
  lemma WriteLeaf(mem: Memory, start: nat, t: Tree, p: seq<nat>, i: nat, e: nat)
    requires TreeOk(mem, start, t) && p in t && |p| == 3 && i < 512
    ensures NodeOk(mem, start, t, p)
    ensures var a := TableAt(start, t, p); var mem' := Poke(mem, a, i, e);
      && TreeOk(mem', start, t)
      && forall q, last ::
           LeafAt(mem', start, t, q, last) == if q == p && last == i then e else LeafAt(mem, start, t, q, last)
  {
    assert NodeOk(mem, start, t, p);
    var a := TableAt(start, t, p);
    var mem' := Poke(mem, a, i, e);
    forall q | q in t ensures NodeOk(mem', start, t, q) {
      assert NodeOk(mem, start, t, q);
      if q != p { assert t[q] != t[p]; }
    }
  }
}
