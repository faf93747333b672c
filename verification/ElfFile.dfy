/** The image as a file: the checks on its header, and the program headers in its bytes. */
module ElfFile {
  import opened Common
  import opened Words
  import opened PageTables
  import opened Elf
  import opened ElfLoader

  // ---------------------------------------------------------------------
  // Reading
  // ---------------------------------------------------------------------

  /** The n-byte number at an offset. */
  function Field(file: seq<Octet>, at: nat, n: nat): (v: nat)
    requires at + n <= |file|
    ensures v < Limit(n)
  {
    Number(file[at..at + n])
  }

  /** Magic, class, byte order, version; then type and machine, and the size of a program header. */
  predicate Identified(file: seq<Octet>)
    requires |file| >= 64
  {
    && file[..7] == [0x7F, 0x45, 0x4C, 0x46, 2, 1, 1]
    && Field(file, 16, 2) == 2 && Field(file, 18, 2) == 0xB7 && Field(file, 54, 2) == 56
  }

  /** The check on the place of the program headers, in 64-bit arithmetic. */
  predicate TablePasses(at: nat, count: nat, size: nat) { at <= size && (at + count * 56) % LIMIT <= size }

  /** It lets through the tables inside the file, and those whose end wraps, which takes a file of almost 2^64 bytes. */
  lemma TablePassesIff(at: nat, count: nat, size: nat)
    requires at < LIMIT && size < LIMIT && count <= MAX_PHNUM
    ensures TablePasses(at, count, size) <==> at + count * 56 <= size || (at <= size && at + count * 56 >= LIMIT)
  {
    SumWraps(at, count * 56);
  }

  predicate WellFormed(file: seq<Octet>) {
    && |file| >= 64 && Identified(file) && 0 < Field(file, 56, 2) <= MAX_PHNUM
    && TablePasses(Field(file, 32, 8), Field(file, 56, 2), |file|)
  }

  function HeaderAt(file: seq<Octet>, at: nat): (ph: Phdr)
    requires at + 56 <= |file|
    ensures Sized(ph)
  {
    Words.Limits();
    Phdr(Field(file, at, 4), Field(file, at + 4, 4), Field(file, at + 8, 8), Field(file, at + 16, 8),
         Field(file, at + 32, 8), Field(file, at + 40, 8))
  }

  function Table(file: seq<Octet>, at: nat, n: nat): (phs: seq<Phdr>)
    requires at + n * 56 <= |file|
    ensures |phs| == n && forall i :: 0 <= i < n ==> Sized(phs[i])
  {
    seq(n, i requires 0 <= i < n => HeaderAt(file, at + i * 56))
  }

  /** A file that can be in memory. */
  predicate Short(file: seq<Octet>) { |file| + 32 * 56 < LIMIT }

  /** The program headers of a file, none if it is not well formed. */
  function ProgramHeaders(file: seq<Octet>): (phs: seq<Phdr>)
    requires Short(file)
    ensures forall i :: 0 <= i < |phs| ==> Sized(phs[i])
    ensures WellFormed(file) <==> phs != []
  {
    if !WellFormed(file) then [] else
      Words.Limits();
      TablePassesIff(Field(file, 32, 8), Field(file, 56, 2), |file|);
      Table(file, Field(file, 32, 8), Field(file, 56, 2))
  }

  function Entry(file: seq<Octet>): (a: nat) { if |file| < 64 then 0 else Field(file, 24, 8) }

  /**
   elf_load. A file that is not well formed is refused and nothing changes; any other is
   loaded by its program headers.
   */
  method LoadFile(loader: Loader, file: seq<Octet>, l0: nat, ghost t: Tree)
    returns (ok: bool, regions: seq<Region>, ghost t': Tree, ghost ss: seq<Loaded>, ghost full: set<nat>,
             ghost hole: nat)
    requires loader.Valid() && loader.tables.Space(l0, t) && Short(file)
    modifies loader`data, loader.tables`mem, loader.tables.pmm, loader.tables.pmm.bitmap
    ensures loader.Valid() && loader.tables.Space(l0, t')
    ensures !WellFormed(file) ==>
      && !ok && regions == [] && t' == t && loader.data == old(loader.data)
      && loader.tables.mem == old(loader.tables.mem) && loader.tables.pmm.taken == old(loader.tables.pmm.taken)
    ensures !ok ==> loader.tables.pmm.taken - t'.Values == old(loader.tables.pmm.taken - t.Values)
    ensures ok ==>
      && Headers(ss) == Loads(ProgramHeaders(file)) && 0 < |ss| <= MAX_REGIONS
      && Enters(ProgramHeaders(file), Entry(file))
    ensures ok ==> loader.tables.pmm.taken - t'.Values == old(loader.tables.pmm.taken - t.Values) + Frames(ss)
    ensures ok ==> Image(loader.tables.pmm.start, loader.tables.pmm.total, file, loader.data, ss, regions)
    ensures ok ==> (Shows(loader.tables.mem, l0, loader.data, file, ss) <==>
      Demand(Before(old(loader.tables.pmm.taken), t), Loads(ProgramHeaders(file))) <= loader.tables.pmm.total)
    ensures
      ok && Demand(Before(old(loader.tables.pmm.taken), t), Loads(ProgramHeaders(file))) > loader.tables.pmm.total ==>
        Hole(loader.tables.mem, l0, t', ss[|ss| - 1].ph, hole)
    ensures !ok ==>
      || !WellFormed(file) || Loads(ProgramHeaders(file)) == [] || !Enters(ProgramHeaders(file), Entry(file))
      || Stops(file, ProgramHeaders(file), full, loader.tables.pmm.total, Before(old(loader.tables.pmm.taken), t))
  {
    if |file| < 64 || !Identified(file) {
      return false, [], t, [], {}, 0;
    }
    var at, n := Field(file, 32, 8), Field(file, 56, 2);
    if n == 0 || n > MAX_PHNUM {
      return false, [], t, [], {}, 0;
    }
    if !TablePasses(at, n, |file|) {
      return false, [], t, [], {}, 0;
    }
    var phs := ProgramHeaders(file);
    ok, regions, t', ss, full, hole := loader.Load(file, phs, Field(file, 24, 8), l0, t);
  }

  // ---------------------------------------------------------------------
  // Writing, and reading back
  // ---------------------------------------------------------------------

  function Zeros(n: nat): (z: seq<Octet>) { seq(n, _ => 0) }

  /** The header of an executable for this machine with its program headers right behind it. */
  function FileHeader(entry: nat, n: nat): (h: seq<Octet>)
    ensures |h| == 64
  {
    Ident() + Words.Bytes(entry, 8) + Words.Bytes(64, 8) + Sizes() + Words.Bytes(n, 2) + Zeros(6)
  }

  /** Magic to version. */
  function Ident(): (h: seq<Octet>)
    ensures |h| == 24
  {
    [0x7F, 0x45, 0x4C, 0x46, 2, 1, 1] + Zeros(9) + [2, 0, 0xB7, 0, 1, 0, 0, 0]
  }

  /** No sections, no flags; how long the file header and a program header are. */
  function Sizes(): (h: seq<Octet>)
    ensures |h| == 16
  {
    Zeros(12) + [64, 0, 56, 0]
  }

  function HeaderBytes(ph: Phdr): (b: seq<Octet>)
    ensures |b| == 56
  {
    Words.Bytes(ph.kind, 4) + Words.Bytes(ph.flags, 4) + Words.Bytes(ph.offset, 8) + Words.Bytes(ph.vaddr, 8)
    + Words.Bytes(ph.vaddr, 8) + Words.Bytes(ph.filesz, 8) + Words.Bytes(ph.memsz, 8) + Words.Bytes(4096, 8)
  }

  function TableBytes(phs: seq<Phdr>): (b: seq<Octet>)
    ensures |b| == |phs| * 56
  {
    if phs == [] then [] else HeaderBytes(phs[0]) + TableBytes(phs[1..])
  }

  function Assemble(entry: nat, phs: seq<Phdr>, body: seq<Octet>): (file: seq<Octet>) {
    FileHeader(entry, |phs|) + TableBytes(phs) + body
  }

  lemma FieldIs(file: seq<Octet>, at: nat, v: nat, n: nat)
    requires at + n <= |file| && v < Limit(n) && file[at..at + n] == Words.Bytes(v, n)
    ensures Field(file, at, n) == v
  {
    NumberBytes(v, n);
  }

  /** A file read behind its start reads as the part it is in. */
  lemma FieldIn(file: seq<Octet>, pre: seq<Octet>, part: seq<Octet>, post: seq<Octet>, at: nat, n: nat)
    requires file == pre + part + post && at + n <= |part|
    ensures Field(file, |pre| + at, n) == Field(part, at, n)
  {
    assert file[|pre| + at..|pre| + at + n] == part[at..at + n];
  }

  lemma HeaderReads(entry: nat, n: nat)
    requires entry < LIMIT && n < 0x1_0000
    ensures var h := FileHeader(entry, n);
      Identified(h) && Field(h, 24, 8) == entry && Field(h, 32, 8) == 64 && Field(h, 56, 2) == n
  {
    var h := FileHeader(entry, n);
    Words.Limits();
    SixParts(h, Ident(), Words.Bytes(entry, 8), Words.Bytes(64, 8), Sizes(), Words.Bytes(n, 2), Zeros(6));
    FieldIs(h, 24, entry, 8);
    FieldIs(h, 32, 64, 8);
    FieldIs(h, 56, n, 2);
    IdentReads(h);
  }

  lemma SixParts(h: seq<Octet>, a: seq<Octet>, b: seq<Octet>, c: seq<Octet>, d: seq<Octet>, e: seq<Octet>,
                 f: seq<Octet>)
    requires h == a + b + c + d + e + f && |a| == 24 && |b| == 8 && |c| == 8 && |d| == 16 && |e| == 2 && |f| == 6
    ensures |h| == 64 && h[..24] == a && h[24..32] == b && h[32..40] == c && h[40..56] == d && h[56..58] == e
  {
  }

  lemma IdentReads(h: seq<Octet>)
    requires |h| == 64 && h[..24] == Ident() && h[40..56] == Sizes()
    ensures Identified(h)
  {
    assert h[..7] == Ident()[..7] == [0x7F, 0x45, 0x4C, 0x46, 2, 1, 1];
    forall k | 0 <= k < 24 ensures h[k] == Ident()[k] { assert h[..24][k] == h[k]; }
    forall k | 0 <= k < 16 ensures h[40 + k] == Sizes()[k] { assert h[40..56][k] == h[40 + k]; }
    assert h[54] == Sizes()[14] && h[55] == Sizes()[15];
    SmallWord(h, 16, 2);
    SmallWord(h, 18, 0xB7);
    SmallWord(h, 54, 56);
  }

  lemma SmallWord(h: seq<Octet>, at: nat, v: Octet)
    requires at + 2 <= |h| && h[at] == v && h[at + 1] == 0
    ensures Field(h, at, 2) == v
  {
    var w := h[at..at + 2];
    assert w[0] == v && w[1..][0] == 0 && w[1..][1..] == [];
    assert Number(w[1..]) == 0;
  }

  ghost predicate Packed(ph: Phdr) { Sized(ph) && ph.kind < 0x1_0000_0000 }

  lemma EntryReads(ph: Phdr)
    requires Packed(ph)
    ensures HeaderAt(HeaderBytes(ph), 0) == ph
  {
    var b := HeaderBytes(ph);
    Words.Limits();
    EightParts(b, Words.Bytes(ph.kind, 4), Words.Bytes(ph.flags, 4), Words.Bytes(ph.offset, 8),
               Words.Bytes(ph.vaddr, 8), Words.Bytes(ph.vaddr, 8), Words.Bytes(ph.filesz, 8), Words.Bytes(ph.memsz, 8),
               Words.Bytes(4096, 8));
    FieldIs(b, 0, ph.kind, 4);
    FieldIs(b, 4, ph.flags, 4);
    FieldIs(b, 8, ph.offset, 8);
    FieldIs(b, 16, ph.vaddr, 8);
    FieldIs(b, 32, ph.filesz, 8);
    FieldIs(b, 40, ph.memsz, 8);
  }

  lemma EightParts(s: seq<Octet>, a: seq<Octet>, b: seq<Octet>, c: seq<Octet>, d: seq<Octet>, e: seq<Octet>,
                   f: seq<Octet>, g: seq<Octet>, h: seq<Octet>)
    requires s == a + b + c + d + e + f + g + h && |a| == 4 && |b| == 4 && |c| == 8 && |d| == 8 && |e| == 8 && |f| == 8
    requires |g| == 8 && |h| == 8
    ensures |s| == 56 && s[0..4] == a && s[4..8] == b && s[8..16] == c && s[16..24] == d
    ensures s[32..40] == f && s[40..48] == g
  {
  }

  lemma HeaderIn(file: seq<Octet>, pre: seq<Octet>, part: seq<Octet>, post: seq<Octet>)
    requires file == pre + part + post && |part| == 56
    ensures HeaderAt(file, |pre|) == HeaderAt(part, 0)
  {
    FieldIn(file, pre, part, post, 0, 4);
    FieldIn(file, pre, part, post, 4, 4);
    FieldIn(file, pre, part, post, 8, 8);
    FieldIn(file, pre, part, post, 16, 8);
    FieldIn(file, pre, part, post, 32, 8);
    FieldIn(file, pre, part, post, 40, 8);
  }

  lemma {:induction false} TableReads(file: seq<Octet>, pre: seq<Octet>, phs: seq<Phdr>, post: seq<Octet>, i: nat,
                                      at: nat)
    requires file == pre + TableBytes(phs) + post && i < |phs| && Packed(phs[i]) && at == |pre| + i * 56
    ensures at + 56 <= |file| && HeaderAt(file, at) == phs[i]
    decreases |phs|
  {
    var first, rest := HeaderBytes(phs[0]), TableBytes(phs[1..]);
    if i == 0 {
      Regroup(pre, first, rest, post);
      HeaderIn(file, pre, first, rest + post);
      EntryReads(phs[0]);
    } else {
      Regroup(pre, first, rest, post);
      TableReads(file, pre + first, phs[1..], post, i - 1, at);
    }
  }

  lemma Regroup(a: seq<Octet>, b: seq<Octet>, c: seq<Octet>, d: seq<Octet>)
    ensures a + (b + c) + d == a + b + (c + d) == (a + b) + c + d
  {
  }

  lemma TableBack(file: seq<Octet>, h: seq<Octet>, phs: seq<Phdr>, body: seq<Octet>, at: nat, n: nat)
    requires file == h + TableBytes(phs) + body && at == |h| && n == |phs|
    requires forall i :: 0 <= i < |phs| ==> Packed(phs[i])
    ensures at + n * 56 <= |file| && Table(file, at, n) == phs
  {
    var got := Table(file, at, n);
    forall i | 0 <= i < n ensures got[i] == phs[i] {
      var p := at + i * 56;
      TableReads(file, h, phs, body, i, p);
      TableAt(file, at, n, i, p, got);
    }
  }

  lemma TableAt(file: seq<Octet>, at: nat, n: nat, i: nat, p: nat, got: seq<Phdr>)
    requires at + n * 56 <= |file| && i < n && p == at + i * 56 && got == Table(file, at, n)
    ensures p + 56 <= |file| && got[i] == HeaderAt(file, p)
  {
  }

  /** What the header of a file says, for a file whose table is where it says. */
  lemma ReadsTable(file: seq<Octet>, at: nat, n: nat)
    requires 64 <= |file| && Short(file) && 0 < n <= MAX_PHNUM && at + n * 56 <= |file|
    requires Identified(file) && Field(file, 32, 8) == at && Field(file, 56, 2) == n
    ensures WellFormed(file) && ProgramHeaders(file) == Table(file, at, n)
  {
    TablePassesIff(at, n, |file|);
  }

  /** Entry point and program headers come back from the file they were written to, whatever follows them. */
  lemma FileReadsBack(entry: nat, phs: seq<Phdr>, body: seq<Octet>)
    requires entry < LIMIT && 0 < |phs| <= MAX_PHNUM && forall i :: 0 <= i < |phs| ==> Packed(phs[i])
    requires Short(Assemble(entry, phs, body))
    ensures var file := Assemble(entry, phs, body);
      WellFormed(file) && Entry(file) == entry && ProgramHeaders(file) == phs
  {
    var file := HeadBack(entry, phs, body);
    TableBack(file, FileHeader(entry, |phs|), phs, body, 64, |phs|);
    ReadsTable(file, 64, |phs|);
  }

  lemma HeadBack(entry: nat, phs: seq<Phdr>, body: seq<Octet>) returns (file: seq<Octet>)
    requires entry < LIMIT && |phs| <= MAX_PHNUM
    ensures file == Assemble(entry, phs, body) && |file| >= 64 && Identified(file)
    ensures Field(file, 24, 8) == entry && Field(file, 32, 8) == 64 && Field(file, 56, 2) == |phs|
  {
    file := Assemble(entry, phs, body);
    var h, rest := FileHeader(entry, |phs|), TableBytes(phs) + body;
    assert file == h + rest;
    HeaderReads(entry, |phs|);
    HeadReads(file, h, rest);
  }

  lemma HeadReads(file: seq<Octet>, h: seq<Octet>, rest: seq<Octet>)
    requires |h| == 64 && file == h + rest
    ensures Identified(file) <==> Identified(h)
    ensures Field(file, 24, 8) == Field(h, 24, 8) && Field(file, 32, 8) == Field(h, 32, 8)
    ensures Field(file, 56, 2) == Field(h, 56, 2)
  {
    assert file == [] + h + rest && file[..7] == h[..7];
    FieldIn(file, [], h, rest, 16, 2);
    FieldIn(file, [], h, rest, 18, 2);
    FieldIn(file, [], h, rest, 24, 8);
    FieldIn(file, [], h, rest, 32, 8);
    FieldIn(file, [], h, rest, 54, 2);
    FieldIn(file, [], h, rest, 56, 2);
  }
}
