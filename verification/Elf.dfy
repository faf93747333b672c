/**
 Loading a static ELF image: each loadable segment gets frames of its own, filled with
 its file bytes and zeros and mapped at its address with permissions from its flags.
 */
module Elf {
  import opened Arith
  import opened Bits
  import opened Common
  import opened Pmm
  import opened PageTables
  import opened Mmu

  /** A program header; fields are unsigned words of the width the format gives them. */
  datatype Phdr = Phdr(kind: nat, flags: nat, offset: nat, vaddr: nat, filesz: nat, memsz: nat)

  const PT_LOAD: nat := 1
  const MAX_REGIONS: nat := 4
  const MAX_PHNUM: nat := 32
  const USER_TOP: nat := 0x80_0000
  const LIMIT: nat := 0x1_0000_0000_0000_0000

  ghost predicate Sized(ph: Phdr) {
    ph.flags < 0x1_0000_0000 && ph.offset < LIMIT && ph.vaddr < LIMIT && ph.filesz < LIMIT && ph.memsz < LIMIT
  }

  // ---------------------------------------------------------------------
  // Permissions
  // ---------------------------------------------------------------------

  predicate Executes(pf: nat) { pf % 2 == 1 }
  predicate Writes(pf: nat) { pf / 2 % 2 == 1 }
  predicate Reads(pf: nat) { pf / 4 % 2 == 1 }

  /** parse_flags: the page-table bits, or None when the flags are refused. */
  function ParseFlags(pf: nat): (f: Option<nat>) {
    if (Writes(pf) && Executes(pf)) || !Reads(pf) then None
    else Some(4 + 0x20_0000_0000_0000 + (if Writes(pf) then 0x40 else 0xC0)
              + (if Executes(pf) then 0 else 0x40_0000_0000_0000))
  }

  /** Readable segments are accepted, unless they are to be both written and executed. */
  lemma ParsedIff(pf: nat)
    ensures ParseFlags(pf).Some? <==> Bit(pf, 2) && !(Bit(pf, 1) && Bit(pf, 0))
  {
    LowThree(pf);
  }

  /** The bits: memory attributes 1, PXN, user access, and what makes it read-only or not executable. */
  lemma ParsedBits(pf: nat, k: nat)
    requires ParseFlags(pf).Some?
    ensures Bit(ParseFlags(pf).value, k) <==> k in {2, 6, 53} || (k == 7 && !Writes(pf)) || (k == 54 && !Executes(pf))
  {
    var low := if Writes(pf) then 0x44 else 0xC4;
    var high := if Executes(pf) then 0x20 else 0x60;
    Powers();
    assert ParseFlags(pf).value == high * Pow2(TOP) + low;
    BitSplit(high, low, TOP, k);
    if k < TOP { LowBits(low, k); } else { HighBits(high, k - TOP); }
  }

  /** The entry lets user code read, and write and execute as the segment says; the kernel never executes it. */
  ghost predicate Entitles(e: nat, pf: nat) {
    UserReads(e) && (UserWrites(e) <==> Writes(pf)) && (UserExecutes(e) <==> Executes(pf)) && !KernelExecutes(e)
  }

  /** The bits allow exactly what the segment asked for, never both writing and executing, and touch no address bit. */
  lemma FlagsMean(pf: nat)
    requires ParseFlags(pf).Some?
    ensures var f := ParseFlags(pf).value;
      Entitles(f, pf) && !(UserWrites(f) && UserExecutes(f)) && NextTable(f) == 0
  {
    ParsedBits(pf, 6);
    ParsedBits(pf, 7);
    ParsedBits(pf, 53);
    ParsedBits(pf, 54);
    NoAddress(ParseFlags(pf).value);
  }

  /** And so does the entry written with them, for whatever page. */
  lemma LeafEntitles(pa: nat, pf: nat, e: nat)
    requires ParseFlags(pf).Some? && e == LeafEntry(pa, ParseFlags(pf).value)
    ensures Entitles(e, pf)
  {
    var f := ParseFlags(pf).value;
    FlagsMean(pf);
    LeafBits(pa, f);
    assert (Bit(e, 6) <==> Bit(f, 6)) && (Bit(e, 7) <==> Bit(f, 7));
    assert (Bit(e, 53) <==> Bit(f, 53)) && (Bit(e, 54) <==> Bit(f, 54));
  }

  // ---------------------------------------------------------------------
  // Checks
  // ---------------------------------------------------------------------

  /** The checks of a segment against the file and the user half, in 64-bit arithmetic. */
  predicate Refused(ph: Phdr, size: nat) {
    || ph.filesz > ph.memsz
    || (ph.offset + ph.filesz) % 0x1_0000_0000_0000_0000 > size
    || (ph.offset + ph.filesz) % 0x1_0000_0000_0000_0000 < ph.offset
    || ph.vaddr >= USER_TOP
    || (ph.vaddr + ph.memsz) % 0x1_0000_0000_0000_0000 > USER_TOP
    || (ph.vaddr + ph.memsz) % 0x1_0000_0000_0000_0000 < ph.vaddr
  }

  /** They let through exactly the segments that fit, overflow or not. */
  lemma AcceptedIff(ph: Phdr, size: nat)
    requires Sized(ph) && size < LIMIT
    ensures !Refused(ph, size) <==>
      ph.filesz <= ph.memsz && ph.offset + ph.filesz <= size && ph.vaddr < 0x80_0000 && ph.vaddr + ph.memsz <= 0x80_0000
  {
    SumWraps(ph.offset, ph.filesz);
    SumWraps(ph.vaddr, ph.memsz);
  }

  lemma SumWraps(a: nat, b: nat)
    requires a < LIMIT && b < LIMIT
    ensures (a + b) % 0x1_0000_0000_0000_0000 == if a + b < LIMIT then a + b else a + b - LIMIT
  {
    DivModUnique(a + b, 0x1_0000_0000_0000_0000, if a + b < LIMIT then 0 else 1,
                 if a + b < LIMIT then a + b else a + b - LIMIT);
  }

  function Lo(ph: Phdr): (a: nat) { ph.vaddr / 4096 * 4096 }

  function Pages(ph: Phdr): (n: nat)
    ensures Lo(ph) <= ph.vaddr && ph.vaddr + ph.memsz <= Lo(ph) + n * 4096 < ph.vaddr + ph.memsz + 4096
  {
    var hi := (ph.vaddr + ph.memsz + 4095) / 4096 * 4096;
    (hi - Lo(ph)) / 4096
  }

  /** The byte at offset o of a segment's pages. */
  function ImageByte(file: seq<Octet>, ph: Phdr, o: nat): (b: Octet)
    requires ph.offset + ph.filesz <= |file|
  {
    var intra := ph.vaddr - Lo(ph);
    if intra <= o < intra + ph.filesz then file[ph.offset + (o - intra)] else 0
  }

  // ---------------------------------------------------------------------
  // What a loaded segment looks like
  // ---------------------------------------------------------------------

  /** A segment, the physical address of its pages and their first frame. */
  datatype Loaded = Loaded(ph: Phdr, phys: nat, frame: nat)

  type Bytes = map<nat, Octet>

  ghost predicate Usable(file: seq<Octet>, ph: Phdr) {
    && ph.filesz <= ph.memsz && ph.offset + ph.filesz <= |file| && ph.vaddr + ph.memsz <= 0x80_0000
    && ParseFlags(ph.flags).Some?
  }

  ghost predicate Has(data: Bytes, a: nat, b: Octet) { a in data && data[a] == b }

  /** Its frames hold its bytes. */
  ghost predicate Filled(data: Bytes, file: seq<Octet>, s: Loaded)
    requires Usable(file, s.ph)
  {
    forall o: nat :: o < Pages(s.ph) * 4096 ==> Has(data, s.phys + o, ImageByte(file, s.ph, o))
  }

  /** The address is in none of the segment's pages. */
  ghost predicate Outside(ph: Phdr, a: nat) {
    forall j: nat :: j < Pages(ph) ==> Page(Nth(Lo(ph), j)) != Page(a)
  }

  /** No segment after the i-th has the address in its pages. */
  ghost predicate Last(ss: seq<Loaded>, i: nat, a: nat) {
    forall k :: i < k < |ss| ==> Outside(ss[k].ph, a)
  }

  /** Page j of a segment leads to its j-th frame, with its permissions. */
  ghost predicate Leads(mem: Memory, l0: nat, s: Loaded, j: nat, a: nat) {
    ParseFlags(s.ph.flags).Some? && Translate(mem, l0, a) == LeafEntry(Nth(s.phys, j), ParseFlags(s.ph.flags).value)
  }

  /** A segment's pages lead to its frames, except those a later segment has taken over. */
  ghost predicate Reached(mem: Memory, l0: nat, ss: seq<Loaded>, i: nat)
    requires i < |ss|
  {
    forall j: nat, a: nat :: j < Pages(ss[i].ph) && Page(Nth(Lo(ss[i].ph), j)) == Page(a) && Last(ss, i, a) ==>
      Leads(mem, l0, ss[i], j, a)
  }

  /** The byte user code reads at an address, if it can. */
  function ReadByte(mem: Memory, l0: nat, data: Bytes, a: nat): (b: Option<Octet>) {
    var e := Translate(mem, l0, a);
    var pa := NextTable(e) + a % 4096;
    if IsValid(e) && UserReads(e) && pa in data then Some(data[pa]) else None
  }

  /** Through the tables, byte o of a segment's pages reads as its byte of the image. */
  ghost predicate ReadsAs(mem: Memory, l0: nat, data: Bytes, file: seq<Octet>, ph: Phdr, o: nat)
    requires ph.offset + ph.filesz <= |file|
  {
    ReadByte(mem, l0, data, Lo(ph) + o) == Some(ImageByte(file, ph, o))
  }

  /** Every byte of a segment's pages that no later segment has taken over reads as the segment's own. */
  lemma SegmentReads(mem: Memory, l0: nat, data: Bytes, file: seq<Octet>, ss: seq<Loaded>, i: nat, o: nat)
    requires i < |ss| && Usable(file, ss[i].ph) && Filled(data, file, ss[i]) && Reached(mem, l0, ss, i)
    requires o < Pages(ss[i].ph) * 4096 && Last(ss, i, Lo(ss[i].ph) + o)
    requires ss[i].phys % 4096 == 0 && ss[i].phys + Pages(ss[i].ph) * 4096 <= 0x1_0000_0000_0000
    ensures ReadsAs(mem, l0, data, file, ss[i].ph, o)
    ensures Entitles(Translate(mem, l0, Lo(ss[i].ph) + o), ss[i].ph.flags)
  {
    var s := ss[i];
    var j, pa := BytePlace(s, o);
    assert Leads(mem, l0, s, j, Lo(s.ph) + o);
    var e := LeafOf(pa, s.ph.flags);
    FilledAt(data, file, s, o);
    ReadsAt(mem, l0, data, Lo(s.ph) + o, e, s.phys + o);
  }

  /** Byte k of the segment, as an offset in its pages: the file's byte, or zero past the file's part. */
  lemma ImageIs(file: seq<Octet>, ph: Phdr, k: nat) returns (o: nat)
    requires ph.offset + ph.filesz <= |file| && k < ph.memsz
    ensures o < Pages(ph) * 4096 && Lo(ph) + o == ph.vaddr + k
    ensures ImageByte(file, ph, o) == if k < ph.filesz then file[ph.offset + k] else 0
  {
    o := ph.vaddr + k - Lo(ph);
  }

  lemma FilledAt(data: Bytes, file: seq<Octet>, s: Loaded, o: nat)
    requires Usable(file, s.ph) && Filled(data, file, s) && o < Pages(s.ph) * 4096
    ensures s.phys + o in data && data[s.phys + o] == ImageByte(file, s.ph, o)
  {
    assert Has(data, s.phys + o, ImageByte(file, s.ph, o));
  }

  lemma ReadsAt(mem: Memory, l0: nat, data: Bytes, a: nat, e: nat, pa: nat)
    requires Translate(mem, l0, a) == e && IsValid(e) && UserReads(e) && NextTable(e) + a % 4096 == pa && pa in data
    ensures ReadByte(mem, l0, data, a) == Some(data[pa])
  {
  }

  /** Where byte o of a segment's pages lies: its page and the page's address. */
  lemma BytePlace(s: Loaded, o: nat) returns (j: nat, pa: nat)
    requires o < Pages(s.ph) * 4096 && s.phys % 4096 == 0 && s.phys + Pages(s.ph) * 4096 <= 0x1_0000_0000_0000
    ensures j < Pages(s.ph) && pa == Nth(s.phys, j) && Aligned(pa) && pa + (Lo(s.ph) + o) % 4096 == s.phys + o
    ensures Page(Nth(Lo(s.ph), j)) == Page(Lo(s.ph) + o)
  {
    PageOf(s.ph, o);
    PageAddress(s.phys, Pages(s.ph), o);
    j := o / 4096;
    pa := Nth(s.phys, j);
  }

  lemma LeafOf(pa: nat, pf: nat) returns (e: nat)
    requires Aligned(pa) && ParseFlags(pf).Some?
    ensures e == LeafEntry(pa, ParseFlags(pf).value) && IsValid(e) && NextTable(e) == pa && Entitles(e, pf)
  {
    FlagsMean(pf);
    e := LeafEntry(pa, ParseFlags(pf).value);
    LeafEntryFacts(pa, ParseFlags(pf).value);
    LeafEntitles(pa, pf, e);
  }

  lemma PageAddress(phys: nat, pages: nat, o: nat)
    requires phys % 4096 == 0 && phys + pages * 4096 <= 0x1_0000_0000_0000 && o < pages * 4096
    ensures o / 4096 < pages && Aligned(Nth(phys, o / 4096)) && Nth(phys, o / 4096) + o % 4096 == phys + o
  {
    AddMultiple(phys, o / 4096, 4096);
  }

  lemma PageOf(ph: Phdr, o: nat)
    ensures Page(Nth(Lo(ph), o / 4096)) == Page(Lo(ph) + o) && (Lo(ph) + o) % 4096 == o % 4096
  {
    var j := o / 4096;
    assert Lo(ph) == 4096 * (ph.vaddr / 4096);
    DivModUnique(Lo(ph) + o, 4096, ph.vaddr / 4096 + j, o % 4096);
    DivModUnique(Nth(Lo(ph), j), 4096, ph.vaddr / 4096 + j, 0);
  }

  // ---------------------------------------------------------------------
  // Keeping what is loaded
  // ---------------------------------------------------------------------

  /** Filling other frames leaves a segment filled. */
  lemma StillFilled(data: Bytes, data': Bytes, file: seq<Octet>, s: Loaded, from: nat, to: nat)
    requires Usable(file, s.ph) && Filled(data, file, s)
    requires s.phys + Pages(s.ph) * 4096 <= from || to <= s.phys
    requires forall a: nat :: a < from || to <= a ==> (a in data' <==> a in data) && (a in data ==> data'[a] == data[a])
    ensures Filled(data', file, s)
  {
    forall o: nat | o < Pages(s.ph) * 4096 ensures Has(data', s.phys + o, ImageByte(file, s.ph, o)) {
      FilledAt(data, file, s, o);
    }
  }

  /** Runs of frames that share no frame share no address. */
  lemma RunsApart(start: nat, p: nat, n: nat, q: nat, m: nat)
    requires Run(p, n) !! Run(q, m) && n > 0 && m > 0
    ensures
      || FrameAddr(start, p) + n * 4096 <= FrameAddr(start, q)
      || FrameAddr(start, q) + m * 4096 <= FrameAddr(start, p)
  {
    if p <= q {
      assert p + n <= q || q in Run(p, n);
      assert q in Run(q, m);
    } else {
      assert q + m <= p || p in Run(q, m);
      assert p in Run(p, n);
    }
  }
}
