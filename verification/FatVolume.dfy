/** The FAT32 driver as it runs: one shared sector buffer, sectors read, patched and written back. */
module FatVolume {
  import opened Common
  import opened Words
  import opened Fat32
  import opened Fat32Files

  // ---------------------------------------------------------------------
  // Walking the sectors of a chain one at a time
  // ---------------------------------------------------------------------

  /** What is left of a chain from sector s of its first cluster. */
  ghost function Left(g: Geometry, cs: seq<nat>, s: nat): (r: seq<nat>)
    requires cs != [] && s <= g.spc
  {
    (Run(Base(g, cs[0]), g.spc) + Sectors(g, cs[1..]))[s..]
  }

  lemma LeftStep(g: Geometry, d: Disk, cs: seq<nat>, s: nat)
    requires cs != [] && Fits(g, d) && Real(g, cs) && s <= g.spc
    ensures Left(g, cs, 0) == Sectors(g, cs) && Left(g, cs, g.spc) == Sectors(g, cs[1..]) && OnDisk(d, Left(g, cs, s))
    ensures s < g.spc ==>
      && Left(g, cs, s) != [] && Left(g, cs, s)[0] == Base(g, cs[0]) + s && Left(g, cs, s)[1..] == Left(g, cs, s + 1)
      && g.dataStart <= Base(g, cs[0]) + s < |d|
  {
    SectorsOnDisk(g, d, cs);
    BaseUp(g, cs[0], g.clusters);
  }

  /** The first cluster of a chain and the last, 0 for no chain. */
  ghost function First(cs: seq<nat>): (c: nat) { if cs == [] then 0 else cs[0] }

  ghost function Final(cs: seq<nat>): (c: nat) { if cs == [] then 0 else cs[|cs| - 1] }

  lemma GrowStep(g: Geometry, d0: Disk, d: Disk, cs: seq<nat>)
    requires Fits(g, d0) && Fits(g, d) && SameData(g, d0, d) && Grown(Fat(g, d0), Fat(g, d), cs) && Real(g, cs)
    requires FirstFree(Fat(g, d), 2) < g.clusters
    ensures |cs| < |FreeSet(Fat(g, d0))|
    ensures Fits(g, ExtendDisk(g, d, cs)) && SameData(g, d0, ExtendDisk(g, d, cs))
    ensures Grown(Fat(g, d0), Fat(g, ExtendDisk(g, d, cs)), cs + [FirstFree(Fat(g, d), 2)])
    ensures Real(g, cs + [FirstFree(Fat(g, d), 2)])
  {
    GrownFree(Fat(g, d0), Fat(g, d), cs);
    assert FirstFree(Fat(g, d), 2) in FreeSet(Fat(g, d));
    ExtendGrown(Fat(g, d0), Fat(g, d), cs);
    ExtendDiskIs(g, d, cs);
  }

  /** Once all the free clusters are taken there is no first one. */
  lemma GrowStops(g: Geometry, d0: Disk, d: Disk, cs: seq<nat>)
    requires Fits(g, d0) && Fits(g, d) && Grown(Fat(g, d0), Fat(g, d), cs)
    ensures |cs| <= |FreeSet(Fat(g, d0))|
    ensures |cs| == |FreeSet(Fat(g, d0))| <==> FirstFree(Fat(g, d), 2) == g.clusters
  {
    GrownFree(Fat(g, d0), Fat(g, d), cs);
    if |FreeSet(Fat(g, d))| > 0 { FreeFound(Fat(g, d)); }
    if FirstFree(Fat(g, d), 2) < g.clusters { assert FirstFree(Fat(g, d), 2) in FreeSet(Fat(g, d)); }
  }

  /** Clusters cs have been linked, and the rounds up to `most` of them lead to the goal. */
  ghost predicate Growing(g: Geometry, d0: Disk, d: Disk, cs: seq<nat>, most: nat, goal: (Disk, seq<nat>)) {
    && Fits(g, d0) && Fits(g, d) && Real(g, cs) && |cs| <= most <= |FreeSet(Fat(g, d0))|
    && forall k: nat {:trigger Inside(k)} :: Inside(k) ==>
         SameData(g, d0, d) && Grown(Fat(g, d0), Fat(g, d), cs) && GrowDisk(g, d0, d, cs, most) == goal
  }

  /** The next round, if there is one. */
  lemma GrowsOn(g: Geometry, d0: Disk, d: Disk, cs: seq<nat>, most: nat, goal: (Disk, seq<nat>))
    returns (d': Disk, cs': seq<nat>)
    requires Growing(g, d0, d, cs, most, goal)
    ensures |cs| == |FreeSet(Fat(g, d0))| <==> FirstFree(Fat(g, d), 2) == g.clusters
    ensures |cs| == most ==> cs' == cs
    ensures |cs| < most ==> d' == ExtendDisk(g, d, cs) && cs' == cs + [FirstFree(Fat(g, d), 2)]
    ensures |cs| < most ==> Growing(g, d0, d', cs', most, goal)
  {
    assert Grown(Fat(g, d0), Fat(g, d), cs) by { assert Inside(0); }
    GrowStops(g, d0, d, cs);
    d', cs' := d, cs;
    if |cs| < most { d', cs' := GrowsOnce(g, d0, d, cs, most, goal); }
  }

  lemma GrowsOnce(g: Geometry, d0: Disk, d: Disk, cs: seq<nat>, most: nat, goal: (Disk, seq<nat>))
    returns (d': Disk, cs': seq<nat>)
    requires Growing(g, d0, d, cs, most, goal) && |cs| < most && FirstFree(Fat(g, d), 2) < g.clusters
    ensures d' == ExtendDisk(g, d, cs) && cs' == cs + [FirstFree(Fat(g, d), 2)]
    ensures Growing(g, d0, d', cs', most, goal)
  {
    assert SameData(g, d0, d) && Grown(Fat(g, d0), Fat(g, d), cs) && GrowDisk(g, d0, d, cs, most) == goal by {
      assert Inside(0);
    }
    GrowStep(g, d0, d, cs);
    d', cs' := GrowOne(g, d0, d, cs, most);
    GrowingOn(g, d0, d', cs', most, goal);
  }

  lemma GrowingOn(g: Geometry, d0: Disk, d: Disk, cs: seq<nat>, most: nat, goal: (Disk, seq<nat>))
    requires Fits(g, d0) && Fits(g, d) && Real(g, cs) && |cs| <= most <= |FreeSet(Fat(g, d0))| && SameData(g, d0, d)
    requires Grown(Fat(g, d0), Fat(g, d), cs) && GrowDisk(g, d0, d, cs, most) == goal
    ensures Growing(g, d0, d, cs, most, goal)
  {
  }

  lemma StartsGrowing(g: Geometry, d: Disk, n: nat) returns (d0: Disk, most: nat, goal: (Disk, seq<nat>))
    requires Fits(g, d)
    ensures d0 == d && most == Min(n, |FreeSet(Fat(g, d))|) && goal == Taken(g, d, n)
    ensures Growing(g, d, d, [], most, goal)
  {
    NothingGrown(g, d);
    d0, most, goal := d, Min(n, |FreeSet(Fat(g, d))|), Taken(g, d, n);
  }

  lemma DoneGrowing(g: Geometry, d0: Disk, d: Disk, cs: seq<nat>, goal: (Disk, seq<nat>))
    requires Growing(g, d0, d, cs, |cs|, goal)
    ensures (d, cs) == goal
  {
    assert Inside(0);
  }

  /** The entries of the table behind the last real cluster are all marked as taken. */
  ghost predicate Sealed(g: Geometry, d: Disk)
    requires g.dataStart <= |d|
  {
    forall k: nat {:trigger Inside(k)} :: Inside(k) ==>
      forall x :: g.clusters <= x && EntrySector(g, x) < g.dataStart ==> Entry(g, d, x) != 0
  }

  lemma SealedKept(g: Geometry, d: Disk, cs: seq<nat>)
    requires Fits(g, d) && FirstFree(Fat(g, d), 2) < g.clusters && Real(g, cs) && Sealed(g, d)
    ensures g.dataStart <= |ExtendDisk(g, d, cs)| && Sealed(g, ExtendDisk(g, d, cs))
  {
    var c := FirstFree(Fat(g, d), 2);
    assert Inside(0);
    FatSet(g, d, c, LAST);
    var d1 := SetEntry(g, d, c, LAST);
    forall x | g.clusters <= x && EntrySector(g, x) < g.dataStart ensures Entry(g, ExtendDisk(g, d, cs), x) != 0 {
      EntrySet(g, d, c, LAST, x);
      if cs != [] {
        InTable(g, d1);
        EntrySet(g, d1, cs[|cs| - 1], c, x);
      }
    }
  }

  lemma GrownStarts(f0: seq<nat>, f: seq<nat>, cs: seq<nat>)
    requires Grown(f0, f, cs) && cs != []
    ensures Chain(f, cs[0], cs)
  {
    GrownChain(f0, f, cs, 0);
    assert cs[0..] == cs;
  }

  /** No entry before c reads free. */
  ghost predicate NoneFree(g: Geometry, d: Disk, c: nat)
    requires g.dataStart <= |d|
  {
    forall k: nat {:trigger Inside(k)} :: Inside(k) ==>
      forall x :: 2 <= x < c ==> EntrySector(g, x) < g.dataStart && Entry(g, d, x) != 0
  }

  lemma NoneFreeYet(g: Geometry, d: Disk)
    requires g.dataStart <= |d|
    ensures NoneFree(g, d, 2)
  {
  }

  lemma NoneFreeStill(g: Geometry, d: Disk, c: nat)
    requires g.dataStart <= |d| && NoneFree(g, d, c) && EntrySector(g, c) < g.dataStart && Entry(g, d, c) != 0
    ensures NoneFree(g, d, c + 1)
  {
    assert Inside(0);
  }

  /** c is the first entry of all that reads free, or 0 and there is none. */
  ghost predicate Scanned(g: Geometry, d: Disk, c: nat)
    requires g.dataStart <= |d|
  {
    if c == 0 then exists n :: EntrySector(g, n) >= g.dataStart && NoneFree(g, d, n)
    else 2 <= c && EntrySector(g, c) < g.dataStart && Entry(g, d, c) == 0 && NoneFree(g, d, c)
  }

  lemma SealedBy(g: Geometry, d: Disk)
    requires g.dataStart <= |d|
    requires forall x :: g.clusters <= x && EntrySector(g, x) < g.dataStart ==> Entry(g, d, x) != 0
    ensures Sealed(g, d)
  {
  }

  /**
   The scan hands out an entry that names no cluster exactly when no cluster is free and
   the table behind the last of them is not sealed.
   */
  lemma StrayIff(g: Geometry, d: Disk, c: nat)
    requires Fits(g, d) && Scanned(g, d, c)
    ensures c >= g.clusters <==> FirstFree(Fat(g, d), 2) == g.clusters && !Sealed(g, d)
  {
    ScannedIs(g, d, c);
    assert Inside(0);
    InTable(g, d);
    forall x | 2 <= x < g.clusters ensures Fat(g, d)[x] == Entry(g, d, x) { FatAt(g, d, x); }
    if c == 0 { SealedBy(g, d); }
  }

  /** With a free cluster the scan finds the first, and otherwise nothing if the rest of the table is sealed. */
  lemma ScannedIs(g: Geometry, d: Disk, c: nat)
    requires Fits(g, d) && Scanned(g, d, c)
    ensures var p := FirstFree(Fat(g, d), 2);
      (p < g.clusters ==> c == p) && (p == g.clusters && Sealed(g, d) ==> c == 0)
  {
    assert Inside(0);
    InTable(g, d);
    forall x | 2 <= x < g.clusters ensures Fat(g, d)[x] == Entry(g, d, x) { FatAt(g, d, x); }
  }

  lemma {:induction false} ReachedReal(g: Geometry, cs: seq<nat>, good: nat)
    requires Real(g, cs)
    ensures Real(g, Reached(cs, good)) && (cs != [] ==> Reached(cs, good) != [] && Reached(cs, good)[0] == cs[0])
    ensures cs != [] ==> Reached(cs, good)[1..] == if good == 0 then [] else Reached(cs[1..], good - 1)
    decreases |cs|
  {
    if cs != [] && good > 0 { ReachedReal(g, cs[1..], good - 1); }
  }

  ghost predicate Pending(g: Geometry, d: Disk, eff: seq<nat>, rest: seq<Octet>, goal: Disk) {
    OnDisk(d, Sectors(g, eff)) && WriteData(d, Sectors(g, eff), rest) == goal
  }

  ghost predicate Reading(g: Geometry, d: Disk, sectors: seq<nat>, out: seq<Octet>, remaining: nat, goal: seq<Octet>) {
    OnDisk(d, sectors) && out + ReadData(d, sectors, remaining) == goal
  }

  lemma ReadStep(d: Disk, sectors: seq<nat>, out: seq<Octet>, n: nat)
    requires OnDisk(d, sectors) && sectors != [] && n > 0
    ensures out + ReadData(d, sectors, n)
      == (out + d[sectors[0]][..Min(n, 512)]) + ReadData(d, sectors[1..], n - Min(n, 512))
  {
  }

  lemma WriteStep(d: Disk, sectors: seq<nat>, src: seq<Octet>)
    requires OnDisk(d, sectors) && sectors != [] && src != []
    ensures Writing(d[sectors[0] := Chunk(src)], sectors[1..], After(src), WriteData(d, sectors, src))
  {
  }

  /** Writing src to the sectors leads to the goal. */
  ghost predicate Writing(d: Disk, sectors: seq<nat>, src: seq<Octet>, goal: Disk) {
    OnDisk(d, sectors) && WriteData(d, sectors, src) == goal
  }

  /** The slots of the first sector come first. */
  lemma SlotsFirst(d: Disk, sectors: seq<nat>)
    requires OnDisk(d, sectors) && sectors != []
    ensures Slots(d, sectors)[16..] == Slots(d, sectors[1..])
    ensures forall i :: 0 <= i < 16 ==> Slots(d, sectors)[i] == SlotOf(d[sectors[0]], i)
  {
    forall p | 0 <= p < 16 * (|sectors| - 1) ensures Slots(d, sectors)[16..][p] == Slots(d, sectors[1..])[p] {
      assert Slots(d, sectors)[16..][p] == Slots(d, sectors)[p + 16];
      assert (p + 16) / 16 == p / 16 + 1 && (p + 16) % 16 == p % 16;
    }
  }

  ghost predicate Looking(d: Disk, sectors: seq<nat>, target: seq<Octet>, goal: Option<Slot>) {
    OnDisk(d, sectors) && Lookup(Slots(d, sectors), target) == goal
  }

  /** A sector without a free slot can be passed over. */
  lemma AddLater(d: Disk, sectors: seq<nat>, e: Slot)
    requires OnDisk(d, sectors) && sectors != []
    requires forall k :: 0 <= k < 16 ==> !IsFree(SlotOf(d[sectors[0]], k))
    ensures OnDisk(d, sectors[1..]) && AddEntry(d, sectors, e) == AddEntry(d, sectors[1..], e)
  {
    SlotsFirst(d, sectors);
    var p := FreeSlot(Slots(d, sectors[1..]));
    FreeAt(Slots(d, sectors), p + 16, 16);
    if p < 16 * (|sectors| - 1) { PutLater(d, sectors, p, e); }
  }

  lemma PutLater(d: Disk, sectors: seq<nat>, p: nat, e: Slot)
    requires OnDisk(d, sectors) && sectors != [] && p < 16 * (|sectors| - 1)
    ensures PutSlot(d, sectors, p + 16, e) == PutSlot(d, sectors[1..], p, e)
  {
    assert (p + 16) / 16 == p / 16 + 1 && (p + 16) % 16 == p % 16;
  }

  /** The first free slot of the first sector takes the entry. */
  lemma AddHere(d: Disk, sectors: seq<nat>, e: Slot, i: nat)
    requires OnDisk(d, sectors) && sectors != [] && i < 16
    requires (forall k :: 0 <= k < i ==> !IsFree(SlotOf(d[sectors[0]], k))) && IsFree(SlotOf(d[sectors[0]], i))
    ensures AddEntry(d, sectors, e) == Some(d[sectors[0] := Put(d[sectors[0]], 32 * i, e)])
  {
    SlotsFirst(d, sectors);
    FreeIs(Slots(d, sectors), i);
  }

  lemma {:induction false} FreeAt(slots: seq<Slot>, p: nat, k: nat)
    requires k <= p <= |slots| && (forall j :: 0 <= j < k ==> !IsFree(slots[j]))
    requires (forall j :: 0 <= j < p - k ==> !IsFree(slots[k..][j])) && (p < |slots| ==> IsFree(slots[p]))
    ensures FreeSlot(slots) == p
  {
    forall j | 0 <= j < p ensures !IsFree(slots[j]) { if j >= k { assert slots[k..][j - k] == slots[j]; } }
    FreeIs(slots, p);
  }

  lemma {:induction false} FreeIs(slots: seq<Slot>, p: nat)
    requires p <= |slots| && (p < |slots| ==> IsFree(slots[p])) && forall j :: 0 <= j < p ==> !IsFree(slots[j])
    ensures FreeSlot(slots) == p
  {
    if p > 0 { FreeIs(slots[1..], p - 1); }
  }

  ghost predicate Adding(d: Disk, sectors: seq<nat>, e: Slot, goal: Option<Disk>) {
    OnDisk(d, sectors) && AddEntry(d, sectors, e) == goal
  }

  class Volume {
    const g: Geometry
    const sec: array<Octet>
    var disk: Disk

    ghost predicate Valid()
      reads this
    {
      Fits(g, disk) && sec.Length == 512
    }

    constructor (geometry: Geometry, sectors: Disk)
      requires Fits(geometry, sectors)
      ensures Valid() && g == geometry && disk == sectors && fresh(sec)
    {
      g, disk := geometry, sectors;
      sec := new Octet[512](_ => 0);
    }

    method ClusterToSector(c: nat) returns (s: nat)
      requires 2 <= c
      ensures s == Base(g, c)
    {
      BaseIs(g, c);
      s := g.dataStart + (c - 2) * g.spc;
    }

    /** blk_read of one sector into the buffer. */
    method Load(s: nat)
      requires s < |disk| && sec.Length == 512
      modifies sec
      ensures sec[..] == disk[s]
    {
      forall i | 0 <= i < 512 { sec[i] := disk[s][i]; }
    }

    /** blk_write of the buffer. */
    method Store(s: nat)
      requires s < |disk| && sec.Length == 512
      modifies this`disk
      ensures disk == old(disk)[s := sec[..]]
    {
      disk := disk[s := sec[..]];
    }

    /** Copy bytes into the buffer. */
    method Patch(o: nat, b: seq<Octet>)
      requires sec.Length == 512 && o + |b| <= 512
      modifies sec
      ensures sec[..] == Put(old(sec[..]), o, b)
    {
      forall i | 0 <= i < |b| { sec[o + i] := b[i]; }
    }

    /** A read that fails looks like the end of the chain. */
    method FatNext(c: nat, readable: bool) returns (n: nat)
      requires Valid() && EntrySector(g, c) < g.dataStart
      modifies sec
      ensures EntrySector(g, c) < |disk| && n == if readable then Entry(g, disk, c) else EOC
      ensures readable && c < g.clusters ==> n == Fat(g, disk)[c]
    {
      if !readable {
        return EOC;
      }
      if c < g.clusters { FatAt(g, disk, c); }
      Load(g.fatStart + c / 128);
      n := Number(sec[4 * (c % 128)..4 * (c % 128) + 4]) % 0x1000_0000;
    }

    /** The entry of a real cluster. */
    method Next(c: nat, readable: bool) returns (n: nat)
      requires Valid() && c < g.clusters
      modifies sec
      ensures n == if readable then Fat(g, disk)[c] else EOC
    {
      InTable(g, disk);
      n := FatNext(c, readable);
    }

    method FatWrite(c: nat, n: nat)
      requires Valid() && EntrySector(g, c) < g.dataStart && n < 0x1000_0000
      modifies sec, this`disk
      ensures Valid() && EntrySector(g, c) < |old(disk)| && disk == SetEntry(g, old(disk), c, n)
    {
      Load(EntrySector(g, c));
      var existing := Number(sec[EntryOffset(c)..EntryOffset(c) + 4]);
      Patch(EntryOffset(c), Bytes(Combine(existing, n), 4));
      Store(EntrySector(g, c));
    }

    /** fat_alloc_cluster: scan from cluster 2 and mark the first free one as the last of a chain. */
    method FatAllocCluster() returns (c: nat)
      requires Valid()
      modifies sec, this`disk
      ensures Valid() && g.dataStart <= |old(disk)| && Scanned(g, old(disk), c)
      ensures disk == if c == 0 then old(disk) else SetEntry(g, old(disk), c, LAST)
    {
      c := 2;
      NoneFreeYet(g, disk);
      while EntrySector(g, c) < g.dataStart
        invariant Valid() && disk == old(disk) && c >= 2 && NoneFree(g, disk, c)
        decreases 128 * (g.dataStart + 1) - c
      {
        var n := FatNext(c, true);
        if n == 0 {
          FatWrite(c, LAST);
          return;
        }
        NoneFreeStill(g, disk, c);
        c := c + 1;
      }
      return 0;
    }

    /** The allocation loop of fat32_create. It keeps what it took when the clusters run out. */
    method AllocateChain(n: nat) returns (ok: bool, first: nat, ghost cs: seq<nat>)
      requires Valid() && (n <= |FreeSet(Fat(g, disk))| || Sealed(g, disk))
      modifies sec, this`disk
      ensures Valid() && (disk, cs) == Taken(g, old(disk), n)
      ensures first == First(cs) && (ok <==> |cs| == n)
    {
      first, cs := 0, [];
      var prev, i := 0, 0;
      ghost var d0, most: nat, goal := StartsGrowing(g, disk, n);
      while i < n
        invariant Taking(d0, cs, most, goal, n) && i == |cs| && first == First(cs) && prev == Final(cs)
      {
        var c;
        c, cs := AllocateRound(prev, cs, d0, most, goal, n);
        if c == 0 {
          return false, first, cs;
        }
        prev := c;
        if i == 0 {
          first := prev;
        }
        i := i + 1;
      }
      DoneGrowing(g, d0, disk, cs, goal);
      ok := true;
    }

    /** Between two rounds of the allocation loop for n clusters. */
    ghost predicate Taking(d0: Disk, cs: seq<nat>, most: nat, goal: (Disk, seq<nat>), n: nat)
      reads this
    {
      && Valid() && Growing(g, d0, disk, cs, most, goal) && most <= n
      && (most < n ==> most == |FreeSet(Fat(g, d0))| && Sealed(g, disk))
    }

    /** One round: a cluster taken and linked, or 0 when there is none. */
    method AllocateRound(prev: nat, ghost cs: seq<nat>, ghost d0: Disk, ghost most: nat, ghost goal: (Disk, seq<nat>),
                         ghost n: nat)
      returns (c: nat, ghost cs': seq<nat>)
      requires Taking(d0, cs, most, goal, n) && |cs| < n && prev == Final(cs)
      modifies sec, this`disk
      ensures Valid() && (c == 0 ==> cs' == cs && (disk, cs) == goal)
      ensures c != 0 ==> Taking(d0, cs', most, goal, n) && |cs'| == |cs| + 1
      ensures c != 0 ==> First(cs') == (if cs == [] then c else First(cs)) && Final(cs') == c
    {
      ghost var d';
      d', cs' := GrowsOn(g, d0, disk, cs, most, goal);
      c := AllocateNext(prev, cs);
      if c == 0 {
        DoneGrowing(g, d0, disk, cs, goal);
      }
    }

    method AllocateNext(prev: nat, ghost cs: seq<nat>) returns (c: nat)
      requires Valid() && Real(g, cs) && prev == Final(cs)
      requires FirstFree(Fat(g, disk), 2) < g.clusters || Sealed(g, disk)
      modifies sec, this`disk
      ensures Valid()
      ensures var p := FirstFree(Fat(g, old(disk)), 2); c == if p < g.clusters then p else 0
      ensures disk == if c == 0 then old(disk) else ExtendDisk(g, old(disk), cs)
      ensures Sealed(g, old(disk)) ==> Sealed(g, disk)
    {
      ghost var was := disk;
      c := FatAllocCluster();
      ScannedIs(g, was, c);
      if c == 0 {
        return;
      }
      ExtendDiskIs(g, was, cs);
      if Sealed(g, was) { SealedKept(g, was, cs); }
      if prev != 0 {
        InTable(g, was);
        FatWrite(prev, c);
      }
    }

    /**
     cluster_write_data. `good` table reads succeed; the next one fails, ends the
     walk, and goes unnoticed.
     */
    method ClusterWriteData(first: nat, src: seq<Octet>, good: nat, ghost cs: seq<nat>)
      requires Valid() && Chain(Fat(g, disk), first, cs) && Real(g, cs)
      modifies sec, this`disk
      ensures Valid() && OnDisk(old(disk), Sectors(g, Reached(cs, good)))
      ensures disk == WriteData(old(disk), Sectors(g, Reached(cs, good)), src)
    {
      var rest, cluster: nat, left: nat := src, first, good;
      ghost var on, eff := cs, Reached(cs, good);
      ReachedReal(g, cs, good);
      SectorsOnDisk(g, disk, eff);
      ghost var goal := WriteData(disk, Sectors(g, eff), src);
      while rest != [] && cluster < EOC
        invariant Valid() && Chain(Fat(g, disk), cluster, on) && Real(g, on)
        invariant eff == Reached(on, left) && Pending(g, disk, eff, rest, goal)
        decreases |on|
      {
        ReachedReal(g, on, left);
        rest := WriteCluster(cluster, rest, eff, goal);
        eff := eff[1..];
        cluster, left, on := Advance(cluster, left, on);
      }
    }

    /** fat_next with so many good reads left: a failed read looks like the end of the chain. */
    method Advance(cluster: nat, good: nat, ghost on: seq<nat>) returns (next: nat, left: nat, ghost on': seq<nat>)
      requires Valid() && on != [] && Chain(Fat(g, disk), cluster, on) && Real(g, on)
      modifies sec
      ensures Chain(Fat(g, disk), next, on') && Real(g, on') && |on'| < |on|
      ensures Reached(on, good) != [] && Reached(on', left) == Reached(on, good)[1..]
    {
      ReachedReal(g, on, good);
      next := Next(cluster, good > 0);
      if good == 0 {
        return next, 0, [];
      }
      left, on' := good - 1, on[1..];
    }

    /** The inner loop: as many sectors of one cluster as there is data for. */
    method WriteCluster(cluster: nat, src: seq<Octet>, ghost eff: seq<nat>, ghost goal: Disk) returns (rest: seq<Octet>)
      requires Valid() && eff != [] && Real(g, eff) && cluster == eff[0] && Pending(g, disk, eff, src, goal)
      modifies sec, this`disk
      ensures Valid() && Fat(g, disk) == Fat(g, old(disk)) && Pending(g, disk, eff[1..], rest, goal)
    {
      rest := src;
      var base := ClusterToSector(cluster);
      ghost var r := Sectors(g, eff);
      LeftStep(g, disk, eff, 0);
      var s := 0;
      while s < g.spc && rest != []
        invariant s <= g.spc && Valid() && Fat(g, disk) == Fat(g, old(disk)) && r == Left(g, eff, s)
        invariant Writing(disk, r, rest, goal)
      {
        LeftStep(g, disk, eff, s);
        WriteStep(disk, r, rest);
        WriteSector(base + s, rest);
        rest := After(rest);
        s, r := s + 1, r[1..];
      }
      LeftStep(g, disk, eff, s);
      SectorsOnDisk(g, disk, eff[1..]);
    }

    /** Fill the buffer, with zeros behind a short rest, and write it. */
    method WriteSector(s: nat, src: seq<Octet>)
      requires Valid() && g.dataStart <= s < |disk|
      modifies sec, this`disk
      ensures disk == old(disk)[s := Chunk(src)] && Valid() && Fat(g, disk) == Fat(g, old(disk))
    {
      if |src| < 512 {
        forall i | 0 <= i < 512 { sec[i] := if i < |src| then src[i] else 0; }
      } else {
        forall i | 0 <= i < 512 { sec[i] := src[i]; }
      }
      assert sec[..] == Chunk(src);
      ghost var was := disk;
      Store(s);
      DataFat(g, was, disk);
    }

    /** fat32_read into a buffer of `room` bytes. */
    method Read(first: nat, size: nat, room: nat, ghost cs: seq<nat>) returns (out: seq<Octet>)
      requires Valid() && Real(g, cs) && (Min(size, room) > 0 ==> Chain(Fat(g, disk), first, cs))
      modifies sec
      ensures OnDisk(disk, Sectors(g, cs)) && out == ReadData(disk, Sectors(g, cs), Min(size, room))
    {
      out := [];
      var remaining: nat, cluster: nat := if size > room then room else size, first;
      ghost var on, goal := cs, ReadGoal(cs, remaining);
      while remaining > 0 && cluster < EOC
        invariant Valid() && Real(g, on) && Reading(g, disk, Sectors(g, on), out, remaining, goal)
        invariant remaining > 0 ==> Chain(Fat(g, disk), cluster, on)
        decreases |on|
      {
        out, remaining := ReadCluster(cluster, out, remaining, on, goal);
        cluster := Next(cluster, true);
        on := on[1..];
      }
      assert out + [] == out;
    }

    ghost function ReadGoal(cs: seq<nat>, n: nat): (r: seq<Octet>)
      requires Valid() && Real(g, cs)
      reads this
      ensures Reading(g, disk, Sectors(g, cs), [], n, r)
    {
      SectorsOnDisk(g, disk, cs);
      ReadData(disk, Sectors(g, cs), n)
    }

    method ReadSector(s: nat, start: seq<Octet>, count: nat, ghost r: seq<nat>, ghost goal: seq<Octet>)
      returns (out: seq<Octet>, remaining: nat)
      requires sec.Length == 512 && r != [] && s == r[0] && count > 0 && Reading(g, disk, r, start, count, goal)
      modifies sec
      ensures Reading(g, disk, r[1..], out, remaining, goal)
    {
      Load(s);
      ReadStep(disk, r, start, count);
      var chunk := if count < 512 then count else 512;
      out := start + sec[..chunk];
      remaining := count - chunk;
    }

    method ReadCluster(cluster: nat, start: seq<Octet>, count: nat, ghost on: seq<nat>, ghost goal: seq<Octet>)
      returns (out: seq<Octet>, remaining: nat)
      requires Valid() && on != [] && Real(g, on) && cluster == on[0]
      requires Reading(g, disk, Sectors(g, on), start, count, goal)
      modifies sec
      ensures Reading(g, disk, Sectors(g, on[1..]), out, remaining, goal)
    {
      out, remaining := start, count;
      var base := ClusterToSector(cluster);
      ghost var r := Sectors(g, on);
      LeftStep(g, disk, on, 0);
      var s := 0;
      while s < g.spc && remaining > 0
        invariant s <= g.spc && r == Left(g, on, s) && Reading(g, disk, r, out, remaining, goal)
      {
        LeftStep(g, disk, on, s);
        out, remaining := ReadSector(base + s, out, remaining, r, goal);
        s, r := s + 1, r[1..];
      }
      LeftStep(g, disk, on, s);
      SectorsOnDisk(g, disk, on[1..]);
    }

    /** dir_lookup of an 8.3 name in the directory whose chain is cs. */
    method DirLookup(first: nat, target: seq<Octet>, ghost cs: seq<nat>) returns (found: Option<Slot>)
      requires Valid() && Chain(Fat(g, disk), first, cs) && Real(g, cs)
      modifies sec
      ensures OnDisk(disk, Sectors(g, cs)) && found == Lookup(Slots(disk, Sectors(g, cs)), target)
    {
      SectorsOnDisk(g, disk, cs);
      var cluster: nat := first;
      ghost var on, goal := cs, Lookup(Slots(disk, Sectors(g, cs)), target);
      while cluster < EOC
        invariant Valid() && Chain(Fat(g, disk), cluster, on) && Real(g, on)
        invariant Looking(disk, Sectors(g, on), target, goal)
        decreases |on|
      {
        var done;
        done, found := ScanCluster(cluster, target, on, goal);
        if done {
          return;
        }
        cluster := Next(cluster, true);
        on := on[1..];
      }
      assert on == [] && Slots(disk, Sectors(g, on)) == [];
      return None;
    }

    method ScanCluster(cluster: nat, target: seq<Octet>, ghost on: seq<nat>, ghost goal: Option<Slot>)
      returns (done: bool, found: Option<Slot>)
      requires Valid() && on != [] && Real(g, on) && cluster == on[0] && Looking(disk, Sectors(g, on), target, goal)
      modifies sec
      ensures if done then found == goal else Looking(disk, Sectors(g, on[1..]), target, goal)
    {
      var base := ClusterToSector(cluster);
      ghost var r := Sectors(g, on);
      LeftStep(g, disk, on, 0);
      for s := 0 to g.spc
        invariant r == Left(g, on, s) && Looking(disk, r, target, goal)
      {
        LeftStep(g, disk, on, s);
        Load(base + s);
        done, found := ScanSector(disk[base + s], target, r, goal);
        if done {
          return;
        }
        r := r[1..];
      }
      LeftStep(g, disk, on, g.spc);
      return false, None;
    }

    /** The sixteen entries of the sector in the buffer. */
    method ScanSector(ghost here: Sector, target: seq<Octet>, ghost sectors: seq<nat>, ghost goal: Option<Slot>)
      returns (done: bool, found: Option<Slot>)
      requires sec.Length == 512 && sec[..] == here && sectors != [] && Looking(disk, sectors, target, goal)
      requires here == disk[sectors[0]]
      ensures if done then found == goal else Looking(disk, sectors[1..], target, goal)
    {
      ghost var slots := Slots(disk, sectors);
      SlotsFirst(disk, sectors);
      for i := 0 to 16
        invariant Lookup(slots[i..], target) == goal
      {
        var e: Slot := sec[32 * i..32 * i + 32];
        assert e == SlotOf(here, i) == slots[i..][0];
        assert slots[i..][1..] == slots[i + 1..];
        if e[0] == 0 {
          return true, None;
        }
        if Skipped(e) {
          continue;
        }
        if e[..11] == target {
          return true, Some(e);
        }
      }
      return false, None;
    }

    /** dir_add_entry in the directory whose chain is cs. */
    method DirAddEntry(first: nat, e: Slot, ghost cs: seq<nat>) returns (ok: bool)
      requires Valid() && Chain(Fat(g, disk), first, cs) && Real(g, cs)
      modifies sec, this`disk
      ensures OnDisk(old(disk), Sectors(g, cs))
      ensures AddEntry(old(disk), Sectors(g, cs), e) == if ok then Some(disk) else None
      ensures !ok ==> disk == old(disk)
    {
      SectorsOnDisk(g, disk, cs);
      var cluster: nat := first;
      ghost var on, goal := cs, AddEntry(disk, Sectors(g, cs), e);
      while cluster < EOC
        invariant disk == old(disk) && Chain(Fat(g, disk), cluster, on) && Real(g, on)
        invariant Adding(disk, Sectors(g, on), e, goal)
        decreases |on|
      {
        ok := TryCluster(cluster, e, on, goal);
        if ok {
          return;
        }
        cluster := Next(cluster, true);
        on := on[1..];
      }
      assert on == [] && Sectors(g, on) == [];
      return false;
    }

    method TryCluster(cluster: nat, e: Slot, ghost on: seq<nat>, ghost goal: Option<Disk>) returns (ok: bool)
      requires Valid() && on != [] && Real(g, on) && cluster == on[0] && Adding(disk, Sectors(g, on), e, goal)
      modifies sec, this`disk
      ensures if ok then goal == Some(disk) else disk == old(disk) && Adding(disk, Sectors(g, on[1..]), e, goal)
    {
      var base := ClusterToSector(cluster);
      ghost var r := Sectors(g, on);
      LeftStep(g, disk, on, 0);
      for s := 0 to g.spc
        invariant disk == old(disk) && r == Left(g, on, s) && Adding(disk, r, e, goal)
      {
        LeftStep(g, disk, on, s);
        Load(base + s);
        ok := TrySector(base + s, e, r, goal);
        if ok {
          return;
        }
        r := r[1..];
      }
      LeftStep(g, disk, on, g.spc);
      return false;
    }

    method TrySector(s: nat, e: Slot, ghost sectors: seq<nat>, ghost goal: Option<Disk>) returns (ok: bool)
      requires sec.Length == 512 && s < |disk| && sec[..] == disk[s] && sectors != [] && s == sectors[0]
      requires Adding(disk, sectors, e, goal)
      modifies sec, this`disk
      ensures if ok then goal == Some(disk) else disk == old(disk) && Adding(disk, sectors[1..], e, goal)
    {
      for i := 0 to 16
        invariant disk == old(disk) && sec[..] == disk[s]
        invariant forall k :: 0 <= k < i ==> !IsFree(SlotOf(disk[s], k))
      {
        var mark := sec[32 * i];
        assert mark == SlotOf(disk[s], i)[0];
        if mark == 0 || mark == DELETED {
          AddHere(disk, sectors, e, i);
          Patch(32 * i, e);
          Store(s);
          return true;
        }
      }
      AddLater(disk, sectors, e);
      return false;
    }

    /**
     fat32_create in the directory whose chain is dir. While the data is written `good`
     reads of the table succeed.
     */
    method Create(root: nat, name: seq<Octet>, src: seq<Octet>, good: nat, ghost dir: seq<nat>)
      returns (ok: bool, ghost cs: seq<nat>)
      requires Valid() && Chain(Fat(g, disk), root, dir) && Real(g, dir) && |src| < 0x1_0000_0000
      requires Needed(|src|, PerCluster(g)) <= |FreeSet(Fat(g, disk))| || Sealed(g, disk)
      modifies sec, this`disk
      ensures Valid() && cs == Allocated(g, old(disk), |src|).1
      ensures (disk, ok) == Fat32Files.Create(g, old(disk), dir, name, src, good)
      ensures Ends(g, old(disk), disk, ok, cs, Sectors(g, cs), Sectors(g, dir), NewEntry(cs, name, |src|), src, good)
    {
      CreateEnds(g, disk, root, dir, name, src, good);
      var first;
      ok, first, cs := AllocateChain(Needed(|src|, PerCluster(g)));
      if !ok {
        return;
      }
      var entry := MakeEntry(To83(name), first, |src|);
      GrownKeeps(Fat(g, old(disk)), Fat(g, disk), cs, root, dir);
      if cs != [] { GrownStarts(Fat(g, old(disk)), Fat(g, disk), cs); }
      ok := Place(root, first, entry, src, good, dir, cs);
    }

    /** The data into the clusters and the entry into the directory. */
    method Place(root: nat, first: nat, entry: Slot, src: seq<Octet>, good: nat, ghost dir: seq<nat>,
                 ghost cs: seq<nat>)
      returns (ok: bool)
      requires Valid() && Chain(Fat(g, disk), root, dir) && Real(g, dir) && Real(g, cs)
      requires if cs == [] then first == 0 else first == cs[0] && Chain(Fat(g, disk), first, cs)
      modifies sec, this`disk
      ensures Valid() && OnDisk(Filled(g, old(disk), cs, src, good), Sectors(g, dir))
      ensures AddEntry(Filled(g, old(disk), cs, src, good), Sectors(g, dir), entry) == if ok then Some(disk) else None
      ensures !ok ==> disk == Filled(g, old(disk), cs, src, good)
    {
      FilledFrame(g, disk, cs, src, good);
      if |src| > 0 && first != 0 {
        ClusterWriteData(first, src, good, cs);
      }
      ok := DirAddEntry(root, entry, dir);
    }
  }
}
