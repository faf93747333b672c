/** A file from its creation to its bytes, and creates that succeed without having written the file. */
module FatCases {
  import opened Arith
  import opened Common
  import opened Words
  import opened Fat32
  import opened Fat32Files
  import opened FatVolume

  /**
   Create, look up and read in turn. The name is found exactly when the create succeeded,
   and what is read is the file exactly when nothing is missing where the write broke off.
   */
  method CreateAndRead(v: Volume, root: nat, name: seq<Octet>, src: seq<Octet>, good: nat, ghost dir: seq<nat>)
    returns (ok: bool, found: Option<Slot>, out: seq<Octet>, ghost cs: seq<nat>)
    requires v.Valid() && Chain(Fat(v.g, v.disk), root, dir) && Real(v.g, dir) && OnDisk(v.disk, Sectors(v.g, dir))
    requires |src| + PerCluster(v.g) - 1 < 0x1_0000_0000
    requires Needed(|src|, PerCluster(v.g)) <= |FreeSet(Fat(v.g, v.disk))| || Sealed(v.g, v.disk)
    requires Named(name) && Lookup(Slots(v.disk, Sectors(v.g, dir)), To83(name)).None?
    modifies v.sec, v`disk
    ensures cs == Allocated(v.g, old(v.disk), |src|).1
    ensures OnDisk(old(v.disk), Sectors(v.g, dir))
    ensures var sd := Sectors(v.g, dir);
      ok <==> |cs| == Needed(|src|, PerCluster(v.g)) && FreeSlot(Slots(old(v.disk), sd)) < 16 * |sd|
    ensures found == if ok then Some(NewEntry(cs, name, |src|)) else None
    ensures ok ==> (out == src <==> Complete(v.g, old(v.disk), cs, src, good))
  {
    ok, cs := v.Create(root, name, src, good, dir);
    Created(v.g, old(v.disk), v.disk, root, dir, cs, ok, name, src, good);
    found := v.DirLookup(root, To83(name), dir);
    out := [];
    if found.Some? {
      out := v.Read(ClusterOf(found.value), SizeOf(found.value), |src|, cs);
    }
  }

  /** A name a path can have, and lookup can find. */
  predicate Named(name: seq<Octet>) {
    (forall c :: c in name ==> c != 0) && (name == [] || name[0] != DELETED)
  }

  /** What the lookup and the read behind a create rely on. */
  lemma Created(g: Geometry, d: Disk, d': Disk, root: nat, dir: seq<nat>, cs: seq<nat>, ok: bool, name: seq<Octet>,
                src: seq<Octet>, good: nat)
    requires Fits(g, d) && Chain(Fat(g, d), root, dir) && Real(g, cs) && |src| < 0x1_0000_0000
    requires Ends(g, d, d', ok, cs, Sectors(g, cs), Sectors(g, dir), NewEntry(cs, name, |src|), src, good)
    requires Named(name) && Lookup(Slots(d, Sectors(g, dir)), To83(name)).None?
    requires |src| + PerCluster(g) - 1 < 0x1_0000_0000
    ensures Chain(Fat(g, d'), root, dir) && OnDisk(d', Sectors(g, dir))
    ensures var e := NewEntry(cs, name, |src|);
      && Lookup(Slots(d', Sectors(g, dir)), To83(name)) == (if ok then Some(e) else None)
      && SizeOf(e) == |src| && (ok && src != [] ==> Chain(Fat(g, d'), ClusterOf(e), cs))
  {
    GrownKeeps(Fat(g, d), Fat(g, d'), cs, root, dir);
    NewChain(Fat(g, d), Fat(g, d'), cs, name, |src|);
    NeededIff(|src|, PerCluster(g));
    if ok { FoundIff(d, d', Sectors(g, dir), cs, name, |src|); }
  }

  // ---------------------------------------------------------------------
  // The length overflows
  // ---------------------------------------------------------------------

  /** A file one byte short of 4 GiB is created without a cluster, in any directory with a free slot. */
  lemma WrapHappens(g: Geometry, d: Disk, root: nat, dir: seq<nat>, name: seq<Octet>, src: seq<Octet>, good: nat)
    requires Fits(g, d) && Chain(Fat(g, d), root, dir) && Real(g, dir) && |src| == 0xFFFF_FFFF
    requires OnDisk(d, Sectors(g, dir)) && FreeSlot(Slots(d, Sectors(g, dir))) < 16 * |Sectors(g, dir)|
    ensures Create(g, d, dir, name, src, good).1 && Allocated(g, d, |src|).1 == []
    ensures ReadData(Create(g, d, dir, name, src, good).0, [], |src|) != src
  {
    NeededWraps(PerCluster(g));
    CreateEnds(g, d, root, dir, name, src, good);
  }

  // ---------------------------------------------------------------------
  // A table read fails
  // ---------------------------------------------------------------------

  lemma {:induction false} NoNumber(b: seq<Octet>)
    requires forall i :: 0 <= i < |b| ==> b[i] == 0
    ensures Number(b) == 0
  {
    if b != [] { NoNumber(b[1..]); }
  }

  ghost predicate Blank(s: Sector) { forall i :: 0 <= i < 512 ==> s[i] == 0 }

  lemma BlankTable(g: Geometry, d: Disk)
    requires Fits(g, d) && forall s :: 0 <= s < |d| ==> Blank(d[s])
    ensures forall c :: 0 <= c < g.clusters ==> Fat(g, d)[c] == 0
  {
    forall c | 0 <= c < g.clusters ensures Fat(g, d)[c] == 0 {
      FatAt(g, d, c);
      var o := EntryOffset(c);
      NoNumber(d[EntrySector(g, c)][o..o + 4]);
    }
  }

  /** Nothing on the volume but a root directory of one cluster, and at least two clusters free. */
  ghost predicate Fresh(g: Geometry, d: Disk) {
    && Fits(g, d) && g.clusters > 4 && Chain(Fat(g, d), 2, [2]) && |FreeSet(Fat(g, d))| >= 2
    && forall s :: g.dataStart <= s < |d| ==> Blank(d[s])
  }

  lemma RootOnly(g: Geometry, d: Disk, d': Disk)
    requires Fits(g, d) && g.clusters > 4 && (forall s :: 0 <= s < |d| ==> Blank(d[s]))
    requires EntrySector(g, 2) < |d| && d' == SetEntry(g, d, 2, LAST)
    ensures Fresh(g, d')
  {
    BlankTable(g, d);
    FatSet(g, d, 2, LAST);
    var f := Fat(g, d');
    assert f[3] == 0 && f[4] == 0 && {3, 4} <= FreeSet(f);
    Subset({3, 4}, FreeSet(f));
    assert [2][1..] == [];
  }

  lemma Subset(a: set<nat>, b: set<nat>)
    requires a <= b
    ensures |a| <= |b|
  {
    assert b == a + (b - a);
  }

  /** A table of one sector, filled by the clusters it names, of one sector each. */
  method Formatted() returns (v: Volume)
    ensures fresh(v) && fresh(v.sec) && v.Valid() && v.g == Geometry(1, 2, 1, 128)
    ensures Fresh(v.g, v.disk) && Sealed(v.g, v.disk)
  {
    var g := Geometry(1, 2, 1, 128);
    var d: Disk := seq(128, _ => seq(512, _ => 0));
    BaseIs(g, 128);
    var d' := SetEntry(g, d, 2, LAST);
    RootOnly(g, d, d');
    SealedBy(g, d');
    v := new Volume(g, d');
  }

  // ---------------------------------------------------------------------
  // The clusters do not suffice
  // ---------------------------------------------------------------------

  /** A file longer than the clusters of the volume hold. */
  lemma TooLong(g: Geometry, d: Disk, len: nat)
    requires Fits(g, d) && g == Geometry(1, 2, 1, 128) && len == 127 * 512
    ensures PerCluster(g) == 512 && Needed(len, PerCluster(g)) == 127 > |FreeSet(Fat(g, d))|
  {
    assert Needed(127 * 512, 512) == 127;
    FreeAtMost(Fat(g, d));
  }

  lemma FreeAtMost(f: seq<nat>)
    requires |f| >= 2
    ensures |FreeSet(f)| + 2 <= |f|
  {
    Subset(FreeSet(f), Below(|f|) - {0, 1});
    assert |Below(|f|) - {0, 1}| == |f| - 2;
  }

  /** It happens: on a new volume such a create is refused and takes every free cluster with it. */
  method RefusedHappens() returns (v: Volume, ok: bool)
    ensures v.Valid() && !ok && |FreeSet(Fat(v.g, v.disk))| == 0
  {
    v := Formatted();
    var src: seq<Octet> := seq(127 * 512, _ => 1);
    SectorsOnDisk(v.g, v.disk, [2]);
    TooLong(v.g, v.disk, |src|);
    RefusedKeeps(v.g, v.disk, 2, [2], [65], src, 0);
    ghost var cs;
    ok, cs := v.Create(2, [65], src, 0, [2]);
  }

  /**
   It happens: with the root directory on the only cluster, the scan hands out one that
   begins where the disk ends.
   */
  method StrayHappens() returns (v: Volume, c: nat)
    ensures v.Valid() && c >= v.g.clusters && Base(v.g, c) >= |v.disk|
  {
    var g := Geometry(1, 2, 1, 3);
    var d: Disk := seq(3, _ => seq(512, _ => 0));
    BaseIs(g, 3);
    BlankTable(g, d);
    FatSet(g, d, 2, LAST);
    EntrySet(g, d, 2, LAST, 3);
    NoNumber(d[1][12..16]);
    v := new Volume(g, SetEntry(g, d, 2, LAST));
    ghost var was := v.disk;
    c := v.FatAllocCluster();
    Unsealed(g, was);
    StrayIff(g, was, c);
    if c > g.clusters { BaseUp(g, g.clusters, c); }
  }

  lemma Unsealed(g: Geometry, d: Disk)
    requires g == Geometry(1, 2, 1, 3) && |d| == 3 && Entry(g, d, 3) == 0
    ensures !Sealed(g, d)
  {
    assert Inside(0) && EntrySector(g, 3) == 1;
  }

  /** In an empty directory the name is new and there is a slot. */
  lemma EmptyDirectory(g: Geometry, d: Disk, target: seq<Octet>)
    requires Fresh(g, d)
    ensures Real(g, [2]) && OnDisk(d, Sectors(g, [2])) && Lookup(Slots(d, Sectors(g, [2])), target).None?
    ensures FreeSlot(Slots(d, Sectors(g, [2]))) < 16 * |Sectors(g, [2])|
  {
    SectorsOnDisk(g, d, [2]);
    var sd := Sectors(g, [2]);
    assert sd[0] == Base(g, 2) && Blank(d[sd[0]]);
    assert Slots(d, sd)[0] == SlotOf(d[sd[0]], 0);
  }

  lemma CleanDirectory(g: Geometry, d: Disk)
    requires Fresh(g, d)
    ensures OnDisk(d, Sectors(g, [2])) && Clean(Slots(d, Sectors(g, [2])))
  {
    SectorsOnDisk(g, d, [2]);
    var sd := Sectors(g, [2]);
    forall p | 0 <= p < |Slots(d, sd)| ensures Slots(d, sd)[p][0] == 0 {
      var c := SectorsOf(g, d, [2], sd[p / 16]);
      assert Blank(d[sd[p / 16]]);
    }
  }

  /** A name that starts with the mark of deleted entries: the create succeeds and the file is not found. */
  method LostHappens() returns (ok: bool, found: Option<Slot>)
    ensures ok && found == None
  {
    var v := Formatted();
    var name := [DELETED];
    ghost var d, sd := v.disk, Sectors(v.g, [2]);
    EmptyDirectory(v.g, d, To83(name));
    CleanDirectory(v.g, d);
    ghost var cs;
    ok, cs := v.Create(2, name, [], 0, [2]);
    FoundIff(d, v.disk, sd, cs, name, 0);
    GrownKeeps(Fat(v.g, d), Fat(v.g, v.disk), cs, 2, [2]);
    found := v.DirLookup(2, To83(name), [2]);
  }

  /** Zeros on the disk are not the ones of the file. */
  lemma ZerosMissing(g: Geometry, d: Disk, cs: seq<nat>, src: seq<Octet>)
    requires Fits(g, d) && Real(g, cs) && |cs| == 2 && g.spc == 1 && |src| == 1024 && src[512] == 1
    requires forall s :: g.dataStart <= s < |d| ==> Blank(d[s])
    ensures !Complete(g, d, cs, src, 0)
  {
    SectorsCount(g, cs[..1]);
    SectorsOnDisk(g, d, cs[1..]);
    var tail := Sectors(g, cs[1..]);
    assert tail[0] == Base(g, cs[1]) && Blank(d[tail[0]]);
    assert ReadData(d, tail, 512)[0] == 0 && src[512..][0] == 1;
  }

  /**
   Two clusters on an empty volume, the second with something other than zero in front.
   The table read between them fails, the create reports success, the file is found, and
   what is read is not the file.
   */
  method FaultLoses(v: Volume, name: seq<Octet>, src: seq<Octet>)
    returns (ok: bool, found: Option<Slot>, out: seq<Octet>)
    requires v.Valid() && v.g.spc == 1 && Fresh(v.g, v.disk) && Named(name) && |src| == 1024 && src[512] == 1
    modifies v.sec, v`disk
    ensures ok && found.Some? && SizeOf(found.value) == |src| && out != src
  {
    EmptyDirectory(v.g, v.disk, To83(name));
    SecondMissing(v.g, v.disk, name, src);
    ghost var cs;
    ok, found, out, cs := CreateAndRead(v, 2, name, src, 0, [2]);
  }

  lemma SecondMissing(g: Geometry, d: Disk, name: seq<Octet>, src: seq<Octet>)
    requires Fresh(g, d) && g.spc == 1 && |src| == 1024 && src[512] == 1
    ensures PerCluster(g) == 512 && Needed(|src|, PerCluster(g)) == 2 <= |FreeSet(Fat(g, d))|
    ensures var cs := Allocated(g, d, |src|).1;
      |cs| == 2 && !Complete(g, d, cs, src, 0) && SizeOf(NewEntry(cs, name, |src|)) == |src|
  {
    NeedsTwo(|src|, PerCluster(g));
    var cs := Allocated(g, d, |src|).1;
    ZerosMissing(g, d, cs, src);
    EntryFields(To83(name), cs[0], |src|);
  }

  lemma NeedsTwo(len: nat, p: nat)
    requires len == 1024 && p == 512
    ensures Needed(len, p) == 2
  {
    assert Needed(1024, 512) == 2;
  }

  /** It happens. */
  method FaultHappens() returns (ok: bool, found: Option<Slot>, out: seq<Octet>, src: seq<Octet>)
    ensures ok && found.Some? && SizeOf(found.value) == |src| && out != src
  {
    var v := Formatted();
    src := seq(1024, _ => 1);
    ok, found, out := FaultLoses(v, [65], src);
  }
}
