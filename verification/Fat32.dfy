/**
 A FAT32 volume on a disk of 512-byte sectors: the allocation table is an array of
 little-endian words, files and directories are chains of clusters through it.
 */
module Fat32 {
  import opened Arith
  import opened Common
  import opened Words

  type Sector = s: seq<Octet> | |s| == 512 witness seq(512, _ => 0)

  type Disk = seq<Sector>

  /** First sector of the table, first data sector, sectors per cluster, and how many entries name real clusters. */
  datatype Geometry = Geometry(fatStart: nat, dataStart: nat, spc: nat, clusters: nat)

  const EOC: nat := 0x0FFF_FFF8
  const LAST: nat := 0x0FFF_FFFF

  /** The table lies in front of the data and the data on the disk. */
  ghost predicate Fits(g: Geometry, d: Disk) {
    && 0 < g.spc < 256 && 2 <= g.clusters < EOC
    && g.fatStart + (g.clusters + 127) / 128 <= g.dataStart
    && Base(g, g.clusters) <= |d|
  }

  /** cluster_to_sector: the first sector of cluster c. */
  ghost function Base(g: Geometry, c: nat): (s: nat)
    ensures g.dataStart <= s
  {
    if c <= 2 then g.dataStart else Base(g, c - 1) + g.spc
  }

  lemma {:induction false} BaseIs(g: Geometry, c: nat)
    requires c >= 2
    ensures Base(g, c) == g.dataStart + (c - 2) * g.spc
  {
    if c > 2 { BaseIs(g, c - 1); }
  }

  lemma {:induction false} BaseUp(g: Geometry, b: nat, c: nat)
    requires 2 <= b < c
    ensures Base(g, b) + g.spc <= Base(g, c)
  {
    if b < c - 1 { BaseUp(g, b, c - 1); }
  }

  // ---------------------------------------------------------------------
  // The allocation table
  // ---------------------------------------------------------------------

  /** Replacing the bytes from o on. */
  function Put(s: Sector, o: nat, b: seq<Octet>): (s': Sector)
    requires o + |b| <= 512
  {
    s[..o] + b + s[o + |b|..]
  }

  lemma PutGet(s: Sector, o: nat, b: seq<Octet>, o': nat, k: nat)
    requires o + |b| <= 512 && o' + k <= 512 && ((o == o' && k == |b|) || o + |b| <= o' || o' + k <= o)
    ensures Put(s, o, b)[o'..o' + k] == if o == o' && k == |b| then b else s[o'..o' + k]
  {
  }

  /** The 32-bit word at byte o. */
  function Word(s: Sector, o: nat): (n: nat)
    requires o + 4 <= 512
    ensures n < 0x1_0000_0000
  {
    Limits();
    Number(s[o..o + 4])
  }

  function PutWord(s: Sector, o: nat, n: nat): (s': Sector)
    requires o + 4 <= 512
  {
    Put(s, o, Bytes(n, 4))
  }

  lemma WordPut(s: Sector, o: nat, n: nat, o': nat)
    requires o + 4 <= 512 && o' + 4 <= 512 && n < 0x1_0000_0000 && (o == o' || o + 4 <= o' || o' + 4 <= o)
    ensures Word(PutWord(s, o, n), o') == if o == o' then n else Word(s, o')
  {
    Limits();
    NumberBytes(n, 4);
    PutGet(s, o, Bytes(n, 4), o', 4);
  }

  function EntrySector(g: Geometry, c: nat): (s: nat) { g.fatStart + c / 128 }

  function EntryOffset(c: nat): (o: nat)
    ensures o + 4 <= 512
  {
    4 * (c % 128)
  }

  /** The entries are consecutive words from the start of the table on. */
  lemma EntryPlace(g: Geometry, c: nat)
    ensures 512 * EntrySector(g, c) + EntryOffset(c) == 512 * g.fatStart + 4 * c
  {
  }

  /** The 28 bits of entry c. */
  function Entry(g: Geometry, d: Disk, c: nat): (n: nat)
    requires EntrySector(g, c) < |d|
    ensures n < 0x1000_0000
  {
    Word(d[EntrySector(g, c)], EntryOffset(c)) % 0x1000_0000
  }

  /** fat_write: the upper four bits stay. */
  function SetEntry(g: Geometry, d: Disk, c: nat, n: nat): (d': Disk)
    requires EntrySector(g, c) < |d|
  {
    d[EntrySector(g, c) := PutEntry(d[EntrySector(g, c)], EntryOffset(c), n)]
  }

  function PutEntry(s: Sector, o: nat, n: nat): (s': Sector)
    requires o + 4 <= 512
  {
    PutWord(s, o, Combine(Word(s, o), n))
  }

  /** The upper four bits of one word and the lower 28 of another. */
  function Combine(high: nat, low: nat): (n: nat) {
    high / 0x1000_0000 * 0x1000_0000 + low % 0x1000_0000
  }

  lemma Combined(high: nat, low: nat)
    requires high < 0x1_0000_0000 && low < 0x1000_0000
    ensures Combine(high, low) < 0x1_0000_0000
    ensures Combine(high, low) % 0x1000_0000 == low && Combine(high, low) / 0x1000_0000 == high / 0x1000_0000
  {
    var top := high / 0x1000_0000;
    assert top < 16 && Combine(high, low) == 0x1000_0000 * top + low;
    DivModUnique(Combine(high, low), 0x1000_0000, top, low);
  }

  /** Writing one entry of a sector leaves the others and its own upper bits. */
  lemma EntryPut(s: Sector, o: nat, n: nat, o': nat)
    requires o + 4 <= 512 && o' + 4 <= 512 && n < 0x1000_0000 && (o == o' || o + 4 <= o' || o' + 4 <= o)
    ensures Word(PutEntry(s, o, n), o') % 0x1000_0000 == if o == o' then n else Word(s, o') % 0x1000_0000
    ensures Word(PutEntry(s, o, n), o') / 0x1000_0000 == Word(s, o') / 0x1000_0000
  {
    Combined(Word(s, o), n);
    WordPut(s, o, Combine(Word(s, o), n), o');
  }

  lemma EntrySet(g: Geometry, d: Disk, c: nat, n: nat, c': nat)
    requires EntrySector(g, c) < |d| && EntrySector(g, c') < |d| && n < 0x1000_0000
    ensures Entry(g, SetEntry(g, d, c, n), c') == if c == c' then n else Entry(g, d, c')
    ensures Word(SetEntry(g, d, c, n)[EntrySector(g, c')], EntryOffset(c')) / 0x1000_0000
         == Word(d[EntrySector(g, c')], EntryOffset(c')) / 0x1000_0000
  {
    if EntrySector(g, c') == EntrySector(g, c) {
      SameSector(c, c');
      EntryPut(d[EntrySector(g, c)], EntryOffset(c), n, EntryOffset(c'));
    }
  }

  lemma SameSector(c: nat, c': nat)
    requires c / 128 == c' / 128
    ensures var o, o' := EntryOffset(c), EntryOffset(c');
      (o == o' <==> c == c') && (o == o' || o + 4 <= o' || o' + 4 <= o)
  {
  }

  /** The whole table. */
  ghost function Fat(g: Geometry, d: Disk): (f: seq<nat>)
    requires Fits(g, d)
    ensures |f| == g.clusters
  {
    InTable(g, d);
    seq(g.clusters, c requires 0 <= c < g.clusters => Entry(g, d, c))
  }

  lemma FatAt(g: Geometry, d: Disk, c: nat)
    requires Fits(g, d) && c < g.clusters
    ensures EntrySector(g, c) < g.dataStart <= |d| && Fat(g, d)[c] == Entry(g, d, c)
  {
    InTable(g, d);
  }

  lemma InTable(g: Geometry, d: Disk)
    requires Fits(g, d)
    ensures g.dataStart <= |d| && forall c :: 0 <= c < g.clusters ==> EntrySector(g, c) < g.dataStart
  {
  }

  /** Writing an entry changes that entry of the table and no data sector. */
  lemma FatSet(g: Geometry, d: Disk, c: nat, n: nat)
    requires Fits(g, d) && c < g.clusters && n < 0x1000_0000
    ensures EntrySector(g, c) < |d| && Fits(g, SetEntry(g, d, c, n))
    ensures Fat(g, SetEntry(g, d, c, n)) == Fat(g, d)[c := n]
    ensures forall s :: g.dataStart <= s < |d| ==> SetEntry(g, d, c, n)[s] == d[s]
  {
    InTable(g, d);
    var d' := SetEntry(g, d, c, n);
    forall k | 0 <= k < g.clusters ensures Fat(g, d')[k] == Fat(g, d)[c := n][k] {
      FatAt(g, d, k);
      FatAt(g, d', k);
      EntrySet(g, d, c, n, k);
    }
  }

  // ---------------------------------------------------------------------
  // Chains
  // ---------------------------------------------------------------------

  /** Following the table from c visits exactly cs and ends. */
  ghost predicate Chain(f: seq<nat>, c: nat, cs: seq<nat>)
    decreases cs
  {
    if cs == [] then c >= EOC else c == cs[0] && 2 <= c < |f| && c < EOC && Chain(f, f[c], cs[1..])
  }

  /** The table holds the successor of every cluster but the last, whose entry is an end mark. */
  ghost predicate Follows(f: seq<nat>, cs: seq<nat>, k: nat)
    requires k < |cs|
  {
    && 2 <= cs[k] < |f| && cs[k] < 0x0FFF_FFF8
    && if k + 1 < |cs| then f[cs[k]] == cs[k + 1] else f[cs[k]] >= 0x0FFF_FFF8
  }

  lemma {:induction false} ChainIff(f: seq<nat>, c: nat, cs: seq<nat>)
    ensures Chain(f, c, cs) <==>
      (if cs == [] then c >= 0x0FFF_FFF8 else c == cs[0]) && forall k :: 0 <= k < |cs| ==> Follows(f, cs, k)
    decreases |cs|
  {
    if cs != [] {
      var rest := cs[1..];
      if c < |f| { ChainIff(f, f[c], rest); }
      forall k | 0 <= k < |rest| ensures Follows(f, rest, k) <==> Follows(f, cs, k + 1) {}
      if forall k :: 0 <= k < |cs| ==> Follows(f, cs, k) {
        assert Follows(f, cs, 0);
        forall k | 0 <= k < |rest| ensures Follows(f, rest, k) { assert Follows(f, cs, k + 1); }
      }
      if Chain(f, c, cs) {
        forall k | 0 <= k < |cs| ensures Follows(f, cs, k) { if k > 0 { assert Follows(f, rest, k - 1); } }
      }
    }
  }

  lemma {:induction false} ChainUnique(f: seq<nat>, c: nat, a: seq<nat>, b: seq<nat>)
    requires Chain(f, c, a) && Chain(f, c, b)
    ensures a == b
    decreases |a|
  {
    if a != [] { ChainUnique(f, f[c], a[1..], b[1..]); }
  }

  lemma {:induction false} ChainFrom(f: seq<nat>, c: nat, cs: seq<nat>, k: nat)
    requires Chain(f, c, cs) && k < |cs|
    ensures Chain(f, cs[k], cs[k..])
    decreases k
  {
    if k > 0 {
      ChainFrom(f, f[c], cs[1..], k - 1);
      assert cs[1..][k - 1..] == cs[k..];
    }
  }

  /** A chain that ends never comes back to a cluster. */
  lemma ChainDistinct(f: seq<nat>, c: nat, cs: seq<nat>)
    requires Chain(f, c, cs)
    ensures Distinct(cs)
  {
    forall i, j | 0 <= i < j < |cs| ensures cs[i] != cs[j] {
      if cs[i] == cs[j] {
        ChainFrom(f, c, cs, i);
        ChainFrom(f, c, cs, j);
        ChainUnique(f, cs[i], cs[i..], cs[j..]);
      }
    }
  }

  /** Its clusters are real and none of them is free. */
  lemma {:induction false} ChainTaken(f: seq<nat>, c: nat, cs: seq<nat>)
    requires Chain(f, c, cs)
    ensures forall x :: x in cs ==> 2 <= x < |f| && f[x] != 0
    decreases |cs|
  {
    if cs != [] {
      ChainTaken(f, f[c], cs[1..]);
      TailMembers(cs);
    }
  }

  lemma {:induction false} ChainFrame(f: seq<nat>, f': seq<nat>, c: nat, cs: seq<nat>)
    requires Chain(f, c, cs) && |f'| == |f| && forall x :: x in cs && x < |f| ==> f'[x] == f[x]
    ensures Chain(f', c, cs)
    decreases |cs|
  {
    if cs != [] { ChainFrame(f, f', f[c], cs[1..]); }
  }

  // ---------------------------------------------------------------------
  // Allocating a chain
  // ---------------------------------------------------------------------

  ghost function FreeSet(f: seq<nat>): (s: set<nat>) {
    set c | 2 <= c < |f| && f[c] == 0
  }

  /** The lowest free cluster from c on, or the end of the table. */
  function FirstFree(f: seq<nat>, c: nat): (r: nat)
    requires c <= |f|
    ensures c <= r <= |f| && (r < |f| ==> f[r] == 0) && forall k :: c <= k < r ==> f[k] != 0
    decreases |f| - c
  {
    if c == |f| || f[c] == 0 then c else FirstFree(f, c + 1)
  }

  /** One round of the allocation loop: take the lowest free cluster, mark it last, link the one before to it. */
  function Extend(f: seq<nat>, cs: seq<nat>): (f': seq<nat>)
    requires 2 <= |f| && FirstFree(f, 2) < |f| && forall x :: x in cs ==> x < |f|
    ensures |f'| == |f|
  {
    var c := FirstFree(f, 2);
    if cs == [] then f[c := LAST] else
      assert cs[|cs| - 1] in cs;
      f[c := LAST][cs[|cs| - 1] := c]
  }

  /** cs has been taken from the free clusters of f0 and linked up. */
  ghost predicate Grown(f0: seq<nat>, f: seq<nat>, cs: seq<nat>) {
    && |f| == |f0| && 2 <= |f0| < EOC && Distinct(cs)
    && WereFree(f0, cs) && Linked(f, cs) && SameElsewhere(f0, f, cs)
  }

  ghost predicate WereFree(f: seq<nat>, cs: seq<nat>) {
    forall k :: 0 <= k < |cs| ==> 2 <= cs[k] < |f| && f[cs[k]] == 0
  }

  ghost predicate Linked(f: seq<nat>, cs: seq<nat>) {
    forall k {:trigger f[cs[k]]} :: 0 <= k < |cs| ==>
      cs[k] < |f| && f[cs[k]] == if k + 1 < |cs| then cs[k + 1] else 0x0FFF_FFFF
  }

  ghost predicate SameElsewhere(f0: seq<nat>, f: seq<nat>, cs: seq<nat>)
    requires |f| == |f0|
  {
    forall x :: 0 <= x < |f0| && x !in cs ==> f[x] == f0[x]
  }

  lemma Marked(f0: seq<nat>, f: seq<nat>, cs: seq<nat>)
    requires Grown(f0, f, cs)
    ensures forall x :: x in cs ==> x < |f| && f[x] != 0
  {
    forall x | x in cs ensures x < |f| && f[x] != 0 {
      var k :| 0 <= k < |cs| && cs[k] == x;
      assert f[cs[k]] != 0;
    }
  }

  lemma GrownFree(f0: seq<nat>, f: seq<nat>, cs: seq<nat>)
    requires Grown(f0, f, cs)
    ensures FreeSet(f) == FreeSet(f0) - Members(cs) && |FreeSet(f)| + |cs| == |FreeSet(f0)|
  {
    Marked(f0, f, cs);
    DistinctCount(cs);
    assert Members(cs) <= FreeSet(f0);
  }

  lemma {:induction false} DistinctCount(cs: seq<nat>)
    requires Distinct(cs)
    ensures |Members(cs)| == |cs|
  {
    if cs != [] {
      DistinctCount(cs[1..]);
      TailMembers(cs);
      assert Members(cs) == Members(cs[1..]) + {cs[0]} && cs[0] !in cs[1..];
    }
  }

  lemma FreeFound(f: seq<nat>)
    requires 2 <= |f| && |FreeSet(f)| > 0
    ensures FirstFree(f, 2) < |f|
  {
    var c :| c in FreeSet(f);
  }

  lemma ExtendGrown(f0: seq<nat>, f: seq<nat>, cs: seq<nat>)
    requires Grown(f0, f, cs) && |cs| < |FreeSet(f0)|
    ensures FirstFree(f, 2) < |f| && (forall x :: x in cs ==> x < |f|)
    ensures Grown(f0, Extend(f, cs), cs + [FirstFree(f, 2)])
  {
    GrownFree(f0, f, cs);
    FreeFound(f);
    Marked(f0, f, cs);
    var c := FirstFree(f, 2);
    DistinctConcat(cs, [c]);
    ExtendLinked(f0, f, cs);
    ExtendElsewhere(f0, f, cs);
    assert WereFree(f0, cs + [c]);
  }

  lemma ExtendLinked(f0: seq<nat>, f: seq<nat>, cs: seq<nat>)
    requires Grown(f0, f, cs) && FirstFree(f, 2) < |f|
    ensures (forall x :: x in cs ==> x < |f|) && Linked(Extend(f, cs), cs + [FirstFree(f, 2)])
  {
    Marked(f0, f, cs);
    var all := cs + [FirstFree(f, 2)];
    forall k | 0 <= k < |all|
      ensures all[k] < |f| && Extend(f, cs)[all[k]] == if k + 1 < |all| then all[k + 1] else LAST
    {
      ExtendLink(f0, f, cs, k);
    }
  }

  lemma ExtendElsewhere(f0: seq<nat>, f: seq<nat>, cs: seq<nat>)
    requires Grown(f0, f, cs) && FirstFree(f, 2) < |f|
    ensures (forall x :: x in cs ==> x < |f|) && SameElsewhere(f0, Extend(f, cs), cs + [FirstFree(f, 2)])
  {
    Marked(f0, f, cs);
    var all := cs + [FirstFree(f, 2)];
    forall x | 0 <= x < |f0| && x !in all ensures Extend(f, cs)[x] == f0[x] { ExtendOther(f0, f, cs, x); }
  }

  lemma ExtendOther(f0: seq<nat>, f: seq<nat>, cs: seq<nat>, x: nat)
    requires Grown(f0, f, cs) && FirstFree(f, 2) < |f| && x < |f0| && x !in cs + [FirstFree(f, 2)]
    ensures forall x :: x in cs ==> x < |f|
    ensures Extend(f, cs)[x] == f0[x]
  {
    Marked(f0, f, cs);
    var c := FirstFree(f, 2);
    assert c in cs + [c] && x !in cs;
    if cs != [] { assert cs[|cs| - 1] in cs; }
  }

  lemma ExtendLink(f0: seq<nat>, f: seq<nat>, cs: seq<nat>, k: nat)
    requires Grown(f0, f, cs) && FirstFree(f, 2) < |f| && k <= |cs|
    ensures forall x :: x in cs ==> x < |f|
    ensures var all := cs + [FirstFree(f, 2)];
      all[k] < |f| && Extend(f, cs)[all[k]] == if k + 1 < |all| then all[k + 1] else LAST
  {
    Marked(f0, f, cs);
    if k < |cs| {
      assert f[cs[k]] == if k + 1 < |cs| then cs[k + 1] else LAST;
      assert cs[k] in cs;
    }
  }

  /** A grown chain is a chain. */
  lemma {:induction false} GrownChain(f0: seq<nat>, f: seq<nat>, cs: seq<nat>, k: nat)
    requires Grown(f0, f, cs) && k < |cs|
    ensures Chain(f, cs[k], cs[k..])
    decreases |cs| - k
  {
    assert f[cs[k]] == if k + 1 < |cs| then cs[k + 1] else LAST;
    assert cs[k..][1..] == cs[k + 1..];
    if k + 1 < |cs| { GrownChain(f0, f, cs, k + 1); }
  }

  /** Chains from before the allocation are untouched by it. */
  lemma GrownKeeps(f0: seq<nat>, f: seq<nat>, cs: seq<nat>, c: nat, other: seq<nat>)
    requires Grown(f0, f, cs) && Chain(f0, c, other)
    ensures Chain(f, c, other) && forall x :: x in other ==> x !in cs
  {
    ChainTaken(f0, c, other);
    ChainFrame(f0, f, c, other);
  }

  // ---------------------------------------------------------------------
  // The data of a chain
  // ---------------------------------------------------------------------

  ghost predicate Real(g: Geometry, cs: seq<nat>) { forall k :: 0 <= k < |cs| ==> 2 <= cs[k] < g.clusters }

  /** The sectors of a chain, in order. */
  ghost function Sectors(g: Geometry, cs: seq<nat>): (r: seq<nat>) {
    if cs == [] then [] else Run(Base(g, cs[0]), g.spc) + Sectors(g, cs[1..])
  }

  lemma {:induction false} SectorsCount(g: Geometry, cs: seq<nat>)
    ensures |Sectors(g, cs)| == |cs| * g.spc
  {
    if cs != [] { SectorsCount(g, cs[1..]); }
  }

  ghost function Run(base: nat, n: nat): (r: seq<nat>)
    ensures |r| == n && forall i :: 0 <= i < n ==> r[i] == base + i
  {
    seq(n, i requires 0 <= i < n => base + i)
  }

  /** Sector s belongs to cluster c. */
  ghost predicate Holds(g: Geometry, c: nat, s: nat) { Base(g, c) <= s < Base(g, c) + g.spc }

  /** Every sector of a chain is a data sector of one of its clusters. */
  lemma {:induction false} SectorsOf(g: Geometry, d: Disk, cs: seq<nat>, s: nat) returns (c: nat)
    requires Fits(g, d) && Real(g, cs) && s in Sectors(g, cs)
    ensures c in cs && 2 <= c < g.clusters && Holds(g, c, s) && g.dataStart <= s < |d|
  {
    var head := Run(Base(g, cs[0]), g.spc);
    if s in head {
      c := cs[0];
      BaseUp(g, c, g.clusters);
    } else {
      c := SectorsOf(g, d, cs[1..], s);
    }
  }

  lemma OneCluster(g: Geometry, b: nat, c: nat, s: nat)
    requires 2 <= b && 2 <= c && Holds(g, b, s) && Holds(g, c, s)
    ensures b == c
  {
    if b < c { BaseUp(g, b, c); }
    if c < b { BaseUp(g, c, b); }
  }

  lemma {:induction false} SectorsDistinct(g: Geometry, d: Disk, cs: seq<nat>)
    requires Fits(g, d) && Real(g, cs) && Distinct(cs)
    ensures Distinct(Sectors(g, cs))
  {
    if cs != [] {
      SectorsDistinct(g, d, cs[1..]);
      FirstNotLater(cs);
      var head, tail := Run(Base(g, cs[0]), g.spc), Sectors(g, cs[1..]);
      forall s | s in head ensures s !in tail {
        assert Holds(g, cs[0], s);
        if s in tail {
          var c := SectorsOf(g, d, cs[1..], s);
          OneCluster(g, cs[0], c, s);
        }
      }
      DistinctConcat(head, tail);
    }
  }

  /** Chains with no cluster in common have no sector in common. */
  lemma SectorsApart(g: Geometry, d: Disk, a: seq<nat>, b: seq<nat>)
    requires Fits(g, d) && Real(g, a) && Real(g, b) && forall c :: c in a ==> c !in b
    ensures forall s :: s in Sectors(g, a) ==> s !in Sectors(g, b)
  {
    forall s | s in Sectors(g, a) ensures s !in Sectors(g, b) {
      var c := SectorsOf(g, d, a, s);
      if s in Sectors(g, b) {
        var c' := SectorsOf(g, d, b, s);
        OneCluster(g, c, c', s);
      }
    }
  }

  ghost predicate OnDisk(d: Disk, sectors: seq<nat>) { forall i :: 0 <= i < |sectors| ==> sectors[i] < |d| }

  /** What one sector write takes from the source, padded with zeros. */
  function Chunk(src: seq<Octet>): (s: Sector) {
    if |src| < 512 then src + seq(512 - |src|, _ => 0) else src[..512]
  }

  function After(src: seq<Octet>): (r: seq<Octet>) {
    if |src| < 512 then [] else src[512..]
  }

  /** cluster_write_data over the sectors of the chain. */
  function WriteData(d: Disk, sectors: seq<nat>, src: seq<Octet>): (d': Disk)
    requires OnDisk(d, sectors)
    ensures |d'| == |d|
    decreases |sectors|
  {
    if sectors == [] || src == [] then d
    else WriteData(d[sectors[0] := Chunk(src)], sectors[1..], After(src))
  }

  /** fat32_read over the sectors of the chain. */
  function ReadData(d: Disk, sectors: seq<nat>, n: nat): (r: seq<Octet>)
    requires OnDisk(d, sectors)
    decreases |sectors|
  {
    if sectors == [] || n == 0 then []
    else d[sectors[0]][..Min(n, 512)] + ReadData(d, sectors[1..], n - Min(n, 512))
  }

  lemma {:induction false} WriteFrame(d: Disk, sectors: seq<nat>, src: seq<Octet>, s: nat)
    requires OnDisk(d, sectors) && s < |d| && s !in sectors
    ensures WriteData(d, sectors, src)[s] == d[s]
    decreases |sectors|
  {
    if sectors != [] && src != [] { WriteFrame(d[sectors[0] := Chunk(src)], sectors[1..], After(src), s); }
  }

  /** Sector i of the chain holds bytes 512 i and on, zeros behind the last of them; sectors past the data stay. */
  lemma {:induction false} WrittenAt(d: Disk, sectors: seq<nat>, src: seq<Octet>, i: nat, k: nat)
    requires OnDisk(d, sectors) && Distinct(sectors) && i < |sectors| && k < 512
    ensures WriteData(d, sectors, src)[sectors[i]][k] ==
      if |src| <= 512 * i then d[sectors[i]][k] else if 512 * i + k < |src| then src[512 * i + k] else 0
    decreases |sectors|
  {
    if src != [] {
      var d1 := d[sectors[0] := Chunk(src)];
      FirstNotLater(sectors);
      if i == 0 {
        WriteFrame(d1, sectors[1..], After(src), sectors[0]);
      } else {
        WrittenAt(d1, sectors[1..], After(src), i - 1, k);
        assert sectors[1..][i - 1] == sectors[i] && sectors[i] in sectors[1..];
      }
    }
  }

  lemma {:induction false} ReadFrame(d: Disk, d': Disk, sectors: seq<nat>, n: nat)
    requires |d'| == |d| && OnDisk(d, sectors) && forall i :: 0 <= i < |sectors| ==> d'[sectors[i]] == d[sectors[i]]
    ensures ReadData(d', sectors, n) == ReadData(d, sectors, n)
    decreases |sectors|
  {
    if sectors != [] && n > 0 { ReadFrame(d, d', sectors[1..], n - Min(n, 512)); }
  }

  /** What was written reads back. */
  lemma {:induction false} ReadBack(d: Disk, sectors: seq<nat>, src: seq<Octet>)
    requires OnDisk(d, sectors) && Distinct(sectors) && |src| <= 512 * |sectors|
    ensures ReadData(WriteData(d, sectors, src), sectors, |src|) == src
    decreases |sectors|
  {
    if sectors != [] && src != [] {
      var d1 := d[sectors[0] := Chunk(src)];
      ReadBack(d1, sectors[1..], After(src));
      FirstNotLater(sectors);
      WriteFrame(d1, sectors[1..], After(src), sectors[0]);
      assert |After(src)| == |src| - Min(|src|, 512);
      assert Chunk(src)[..Min(|src|, 512)] + After(src) == src;
    }
  }

  lemma {:induction false} ReadLength(d: Disk, sectors: seq<nat>, n: nat)
    requires OnDisk(d, sectors)
    ensures |ReadData(d, sectors, n)| == Min(n, 512 * |sectors|)
    decreases |sectors|
  {
    if sectors != [] && n > 0 { ReadLength(d, sectors[1..], n - Min(n, 512)); }
  }

  /** Reading past the first sectors. */
  lemma {:induction false} ReadSplit(d: Disk, a: seq<nat>, b: seq<nat>, k: nat, n: nat)
    requires OnDisk(d, a) && OnDisk(d, b) && k == 512 * |a| <= n
    ensures ReadData(d, a + b, n) == ReadData(d, a, k) + ReadData(d, b, n - k)
    decreases |a|
  {
    if a == [] {
      assert a + b == b;
    } else {
      var rest := a[1..];
      assert (a + b)[1..] == rest + b && (a + b)[0] == a[0];
      ReadOne(d, a + b, n);
      ReadOne(d, a, k);
      ReadSplit(d, rest, b, k - 512, n - 512);
      Joined(d[a[0]], ReadData(d, rest, k - 512), ReadData(d, b, n - k));
    }
  }

  lemma ReadOne(d: Disk, sectors: seq<nat>, n: nat)
    requires OnDisk(d, sectors) && sectors != [] && n >= 512
    ensures ReadData(d, sectors, n) == d[sectors[0]] + ReadData(d, sectors[1..], n - 512)
  {
    assert d[sectors[0]][..512] == d[sectors[0]];
  }

  lemma Joined(x: seq<Octet>, y: seq<Octet>, z: seq<Octet>)
    ensures x + (y + z) == (x + y) + z
  {
  }

  /** Data behind the last sector is not written. */
  lemma {:induction false} WriteCut(d: Disk, a: seq<nat>, src: seq<Octet>)
    requires OnDisk(d, a) && 512 * |a| <= |src|
    ensures WriteData(d, a, src) == WriteData(d, a, src[..512 * |a|])
    decreases |a|
  {
    if a != [] {
      var cut := src[..512 * |a|];
      assert Chunk(cut) == Chunk(src) && After(cut) == After(src)[..512 * |a[1..]|];
      WriteCut(d[a[0] := Chunk(src)], a[1..], After(src));
    }
  }

  lemma Parted(a: seq<nat>, b: seq<nat>)
    requires Distinct(a + b)
    ensures Distinct(a) && forall i :: 0 <= i < |b| ==> b[i] !in a
  {
    forall i, j | 0 <= i < j < |a| ensures a[i] != a[j] { assert (a + b)[i] != (a + b)[j]; }
    forall i, j | 0 <= i < |b| && 0 <= j < |a| ensures a[j] != b[i] { assert (a + b)[j] != (a + b)[|a| + i]; }
  }

  lemma SameRest(x: seq<Octet>, y: seq<Octet>, src: seq<Octet>)
    requires |x| <= |src| && x == src[..|x|]
    ensures x + y == src <==> y == src[|x|..]
  {
    assert (x + y)[|x|..] == y && src == src[..|x|] + src[|x|..];
  }

  lemma OthersRead(d: Disk, a: seq<nat>, b: seq<nat>, src: seq<Octet>, n: nat)
    requires OnDisk(d, a) && OnDisk(d, b) && forall i :: 0 <= i < |b| ==> b[i] !in a
    ensures ReadData(WriteData(d, a, src), b, n) == ReadData(d, b, n)
  {
    var d' := WriteData(d, a, src);
    forall i | 0 <= i < |b| ensures d'[b[i]] == d[b[i]] { WriteFrame(d, a, src, b[i]); }
    ReadFrame(d, d', b, n);
  }

  /** When only the first sectors are written, the file reads back exactly when the others hold the rest already. */
  lemma WrittenPart(d: Disk, a: seq<nat>, b: seq<nat>, src: seq<Octet>, n: nat)
    requires OnDisk(d, a) && OnDisk(d, b) && Distinct(a + b) && n == 512 * |a| && n <= |src|
    ensures ReadData(WriteData(d, a, src), a + b, |src|) == src <==> ReadData(d, b, |src| - n) == src[n..]
  {
    var x, y := WrittenSplit(d, a, b, src, n);
    SameRest(x, y, src);
  }

  /** The first sectors read as what was written there, the others as before. */
  lemma WrittenSplit(d: Disk, a: seq<nat>, b: seq<nat>, src: seq<Octet>, n: nat) returns (x: seq<Octet>, y: seq<Octet>)
    requires OnDisk(d, a) && OnDisk(d, b) && Distinct(a + b) && n == 512 * |a| && n <= |src|
    ensures x == src[..n] && y == ReadData(d, b, |src| - n)
    ensures ReadData(WriteData(d, a, src), a + b, |src|) == x + y
  {
    x, y := src[..n], ReadData(d, b, |src| - n);
    var d' := WriteData(d, a, src);
    Parted(a, b);
    assert ReadData(d', a, n) == x by {
      WriteCut(d, a, src);
      ReadBack(d, a, x);
    }
    assert ReadData(d', b, |src| - n) == y by { OthersRead(d, a, b, src, |src| - n); }
    ReadSplit(d', a, b, n, |src|);
  }

  lemma FirstNotLater(s: seq<nat>)
    requires s != [] && Distinct(s)
    ensures s[0] !in s[1..]
  {
    forall i | 0 <= i < |s| - 1 ensures s[1..][i] != s[0] { assert s[1..][i] == s[i + 1]; }
  }
}
