/** Loads that succeed and still do not show every byte of the image. */
module ElfCases {
  import opened Arith
  import opened Common
  import opened Pmm
  import opened PageTables
  import opened Mmu
  import opened Elf
  import opened ElfLoader

  lemma LoadsOne(ph: Phdr)
    requires IsLoad(ph)
    ensures Loads([ph]) == [ph] && Loads([ph][..0]) == []
  {
    assert [ph][..0] == [];
  }

  lemma LoadsTwo(a: Phdr, b: Phdr)
    requires IsLoad(a) && IsLoad(b)
    ensures Loads([a, b]) == [a, b] && Loads([a, b][..0]) == [] && Loads([a, b][..1]) == [a]
  {
    assert [a, b][..0] == [] && [a, b][..1] == [a];
    LoadsOne(a);
  }

  /** A segment within one page needs that page and the three tables above it. */
  lemma OnePageNeeds(ph: Phdr)
    requires Pages(ph) == 1
    ensures PageSum([ph]) == 1 && Levelled([ph]) == Levels(Lo(ph)) && |Levels(Lo(ph))| == 3 && [] !in Levels(Lo(ph))
  {
    var va := Lo(ph);
    assert [ph] == [] + [ph];
    SumsMore([], ph);
    assert RangeLevels(va, 1) == RangeLevels(va, 0) + Levels(Nth(va, 0)) && Nth(va, 0) == va;
    LevelsCount(va);
  }

  lemma LevelsCount(va: nat)
    ensures |Levels(va)| == 3 && [] !in Levels(va)
  {
    var p1, p2 := PathParts(va);
    assert |p1| == 1 && |p2| == 2 && |Path(va)| == 3;
    assert Levels(va) == {p1} + {p2} + {Path(va)};
  }

  /** With a frame left there is room for a page. */
  lemma RoomForOne(taken: set<nat>, total: nat)
    requires |taken| < total
    ensures !NoRoom(taken, total, 1)
  {
    if Below(total) <= taken { SubsetCount(Below(total), taken); }
    var q :| q in Below(total) && q !in taken;
    assert FreeRun(taken, q, 1);
  }

  /** A segment of one page that can be entered. */
  ghost predicate Small(file: seq<Octet>, ph: Phdr) {
    IsLoad(ph) && Sized(ph) && Usable(file, ph) && ph.vaddr < USER_TOP && Pages(ph) == 1
  }

  /**
   With one to three frames left, an image of one page is loaded into an empty space with
   success, and its entry point cannot be read.
   */
  method LoadsShort(loader: Loader, file: seq<Octet>, ph: Phdr, l0: nat, ghost t: Tree) returns (ok: bool)
    requires loader.Valid() && loader.tables.Space(l0, t) && t.Keys == {[]} && |file| < LIMIT
    requires Small(file, ph) && ph.vaddr % 4096 == 0 && EntersAt(ph, ph.vaddr)
    requires |loader.tables.pmm.taken| < loader.tables.pmm.total < |loader.tables.pmm.taken| + 4
    modifies loader`data, loader.tables`mem, loader.tables.pmm, loader.tables.pmm.bitmap
    ensures loader.Valid() && ok && ReadByte(loader.tables.mem, l0, loader.data, ph.vaddr) == None
  {
    var regions;
    ghost var t', ss, full, hole;
    ghost var was, total := Before(loader.tables.pmm.taken, t), loader.tables.pmm.total;
    ok, regions, t', ss, full, hole := loader.Load(file, [ph], ph.vaddr, l0, t);
    OneNeeds(was, ph);
    LoadsOne(ph);
    NeverRefused(file, ph, full, total, was);
    Unread(loader.tables.mem, l0, loader.data, t', ss, ph, hole);
  }

  /** The image of one page passes every check. */
  lemma NeverRefused(file: seq<Octet>, ph: Phdr, full: set<nat>, total: nat, was: Before)
    requires Small(file, ph) && EntersAt(ph, ph.vaddr) && |was.taken| < total && Demand(was, []) == |was.taken|
    ensures Loads([ph]) == [ph] && Enters([ph], ph.vaddr) && !Stops(file, [ph], full, total, was)
  {
    LoadsOne(ph);
    assert EntersAt([ph][0], ph.vaddr);
    if |full| < total { RoomForOne(full, total); }
  }

  lemma OneNeeds(was: Before, ph: Phdr)
    requires Pages(ph) == 1 && was.t.Keys == {[]}
    ensures Demand(was, []) == |was.taken| && Demand(was, [ph]) == |was.taken| + 4
  {
    OnePageNeeds(ph);
    assert Levels(Lo(ph)) - was.t.Keys == Levels(Lo(ph));
  }

  lemma {:induction false} Unread(mem: Memory, l0: nat, data: Bytes, t: Tree, ss: seq<Loaded>, ph: Phdr, j: nat)
    requires Headers(ss) == [ph] && Pages(ph) == 1 && ph.vaddr % 4096 == 0 && ss != []
    requires Hole(mem, l0, t, ss[|ss| - 1].ph, j)
    ensures ReadByte(mem, l0, data, ph.vaddr) == None
  {
    assert ss[|ss| - 1].ph == Headers(ss)[|ss| - 1];
    assert j == 0 && Nth(Lo(ph), 0) == ph.vaddr;
    TableEntryFacts(0);
  }

  lemma OneReserved()
    ensures ReservedFor(4096, 0x4000 / 4096, 4096) == 1 && Below(1) == {0}
  {
    assert PageUp(4096) == 4096 && PageUp(4104) == 8192;
  }

  /** Four frames, of which the bitmap takes one and the root of an empty space another. */
  method FourFrames() returns (loader: Loader, l0: nat, ghost t: Tree)
    ensures fresh(loader) && fresh(loader.tables) && fresh(loader.tables.pmm) && fresh(loader.tables.pmm.bitmap)
    ensures loader.Valid() && loader.tables.Space(l0, t) && t.Keys == {[]}
    ensures |loader.tables.pmm.taken| == 2 && loader.tables.pmm.total == 4
  {
    OneReserved();
    var pmm := new Allocator(4096, 0x4000, 4096);
    var tables := new Tables(pmm);
    l0, t := RootSpace(tables);
    loader := new Loader(tables);
  }

  /** The root of an empty space. */
  method RootSpace(tables: Tables) returns (l0: nat, ghost t: Tree)
    requires tables.Valid() && tables.pmm.taken != Below(tables.pmm.total)
    modifies tables`mem, tables.pmm, tables.pmm.bitmap
    ensures tables.Valid() && tables.Space(l0, t) && t.Keys == {[]} && |tables.pmm.taken| == |old(tables.pmm.taken)| + 1
  {
    ghost var f;
    l0, f := tables.AllocTable();
    t := map[[] := f];
    RootTree(tables.mem, tables.pmm.start, f, tables.pmm.taken, tables.pmm.reserved);
  }

  /** It happens: one byte behind the headers, which is to be the entry point. */
  method ShortLoadHappens() returns (loader: Loader, l0: nat, ok: bool)
    ensures loader.Valid() && ok && ReadByte(loader.tables.mem, l0, loader.data, 0x40_0000) == None
  {
    ghost var t;
    loader, l0, t := FourFrames();
    var file: seq<Octet> := seq(121, i => if i < 120 then 0 else 7);
    var ph := Phdr(PT_LOAD, 5, 120, 0x40_0000, 1, 1);
    ok := LoadsShort(loader, file, ph, l0, t);
  }

  // ---------------------------------------------------------------------
  // Two segments in one page
  // ---------------------------------------------------------------------

  /** Code that holds the entry point at the start of a page, and constants in the same page. */
  function Code(): (ph: Phdr) { Phdr(PT_LOAD, 5, 176, 0x40_0000, 1, 1) }

  function Constants(): (ph: Phdr) { Phdr(PT_LOAD, 4, 177, 0x40_0800, 1, 1) }

  lemma SamePage(file: seq<Octet>, a: Phdr, b: Phdr, o: nat)
    requires 178 <= |file| && a == Code() && b == Constants() && o == 0
    ensures Small(file, a) && Small(file, b) && EntersAt(a, a.vaddr) && Lo(a) == Lo(b) == a.vaddr
    ensures o < Pages(b) * 4096 && Lo(b) + o == a.vaddr && ImageByte(file, b, o) == 0
  {
  }

  lemma TwoNeed(was: Before, a: Phdr, b: Phdr)
    requires Pages(a) == 1 && Pages(b) == 1 && Lo(a) == Lo(b)
    ensures Demand(was, []) == |was.taken| && Demand(was, [a]) <= |was.taken| + 4
    ensures Demand(was, [a, b]) <= |was.taken| + 5
  {
    OnePageNeeds(a);
    OnePageNeeds(b);
    assert [a, b] == [a] + [b];
    SumsMore([a], b);
    assert RangeLevels(Lo(b), Pages(b)) == Levels(Lo(b)) by { assert [b] == [] + [b]; SumsMore([], b); }
    SubsetCount(Levels(Lo(a)) - was.t.Keys, Levels(Lo(a)));
  }

  /** Two segments in one page, the first of which holds its entry at its start: five frames are enough. */
  method LoadsBoth(loader: Loader, file: seq<Octet>, a: Phdr, b: Phdr, l0: nat, ghost t: Tree)
    returns (ok: bool, ghost ss: seq<Loaded>)
    requires loader.Valid() && loader.tables.Space(l0, t) && |file| < LIMIT
    requires Small(file, a) && Small(file, b) && EntersAt(a, a.vaddr) && Lo(a) == Lo(b)
    requires |loader.tables.pmm.taken| + 5 <= loader.tables.pmm.total
    modifies loader`data, loader.tables`mem, loader.tables.pmm, loader.tables.pmm.bitmap
    ensures loader.Valid() && ok && Headers(ss) == [a, b] && Shows(loader.tables.mem, l0, loader.data, file, ss)
  {
    ghost var was, total := Before(loader.tables.pmm.taken, t), loader.tables.pmm.total;
    TwoNeed(was, a, b);
    var phs := [a, b];
    TwoSized(file, a, b, phs);
    var regions;
    ghost var t', full, hole;
    ok, regions, t', ss, full, hole := loader.Load(file, phs, a.vaddr, l0, t);
    BothLoad(ok, file, a, b, phs, full, total, was);
  }

  lemma TwoSized(file: seq<Octet>, a: Phdr, b: Phdr, phs: seq<Phdr>)
    requires Small(file, a) && Small(file, b) && phs == [a, b]
    ensures forall i :: 0 <= i < |phs| ==> Sized(phs[i])
  {
  }

  /** None of the reasons a load can have to fail applies. */
  lemma BothLoad(ok: bool, file: seq<Octet>, a: Phdr, b: Phdr, phs: seq<Phdr>, full: set<nat>, total: nat, was: Before)
    requires Small(file, a) && Small(file, b) && EntersAt(a, a.vaddr) && |was.taken| + 5 <= total && phs == [a, b]
    requires Demand(was, []) == |was.taken| && Demand(was, [a]) <= |was.taken| + 4
    requires !ok ==>
      || |phs| == 0 || |phs| > MAX_PHNUM || Loads(phs) == [] || !Enters(phs, a.vaddr)
      || Stops(file, phs, full, total, was)
    ensures ok && Loads(phs) == [a, b]
  {
    TwoEnter(a, b);
    NeverStuck(file, a, b, full, total, was);
  }

  lemma TwoEnter(a: Phdr, b: Phdr)
    requires IsLoad(a) && IsLoad(b) && EntersAt(a, a.vaddr)
    ensures Loads([a, b]) == [a, b] && Enters([a, b], a.vaddr)
  {
    LoadsTwo(a, b);
    assert EntersAt([a, b][0], a.vaddr);
  }

  /**
   With five frames left an image of two segments in one page is loaded with success, and
   the 7 at its entry point reads as 0.
   */
  method SharedPageLoses(loader: Loader, file: seq<Octet>, l0: nat, ghost t: Tree) returns (ok: bool)
    requires loader.Valid() && loader.tables.Space(l0, t) && 178 <= |file| < LIMIT && file[176] == 7
    requires |loader.tables.pmm.taken| + 5 <= loader.tables.pmm.total
    modifies loader`data, loader.tables`mem, loader.tables.pmm, loader.tables.pmm.bitmap
    ensures loader.Valid() && ok && ReadByte(loader.tables.mem, l0, loader.data, Code().vaddr) == Some(0)
  {
    var a, b := Code(), Constants();
    SamePage(file, a, b, 0);
    ghost var ss;
    ok, ss := LoadsBoth(loader, file, a, b, l0, t);
    SecondShows(loader.tables.mem, l0, loader.data, file, ss, a, b);
  }

  lemma NeverStuck(file: seq<Octet>, a: Phdr, b: Phdr, full: set<nat>, total: nat, was: Before)
    requires Small(file, a) && Small(file, b) && |was.taken| + 5 <= total
    requires Demand(was, []) == |was.taken| && Demand(was, [a]) <= |was.taken| + 4
    ensures !Stops(file, [a, b], full, total, was)
  {
    LoadsTwo(a, b);
    forall i | 0 <= i < 2 ensures !StuckAt(file, [a, b], i, full, total, was) {
      if |full| == Min(total, Demand(was, Loads([a, b][..i]))) { RoomForOne(full, total); }
    }
  }

  lemma {:induction false} SecondShows(mem: Memory, l0: nat, data: Bytes, file: seq<Octet>, ss: seq<Loaded>, a: Phdr,
                                       b: Phdr)
    requires 178 <= |file| && a == Code() && b == Constants() && Headers(ss) == [a, b] && Shows(mem, l0, data, file, ss)
    ensures ReadByte(mem, l0, data, a.vaddr) == Some(0)
  {
    var o := 0;
    SamePage(file, a, b, o);
    assert ss[1].ph == Headers(ss)[1];
    assert Inside(0);
    assert Last(ss, 1, Lo(ss[1].ph) + o) && Shown(mem, l0, data, file, ss[1].ph, o);
  }
}
