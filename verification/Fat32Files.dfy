/** Directories and files: looking a name up, adding an entry, creating a file and reading it back. */
module Fat32Files {
  import opened Arith
  import opened Common
  import opened Words
  import opened Fat32

  // ---------------------------------------------------------------------
  // Names
  // ---------------------------------------------------------------------

  const DOT: Octet := 0x2E
  const SPACE: Octet := 0x20
  const DELETED: Octet := 0xE5

  function Upper(c: Octet): (u: Octet) { if 97 <= c <= 122 then c - 32 else c }

  /** At most n upper-cased characters, filled up with spaces. */
  function Field(s: seq<Octet>, n: nat): (r: seq<Octet>)
    ensures |r| == n
  {
    if n == 0 then [] else if s == [] then [SPACE] + Field(s, n - 1) else [Upper(s[0])] + Field(s[1..], n - 1)
  }

  function DotAt(name: seq<Octet>): (i: nat)
    ensures i <= |name| && (i < |name| ==> name[i] == DOT) && forall k :: 0 <= k < i ==> name[k] != DOT
  {
    if name == [] || name[0] == DOT then 0 else 1 + DotAt(name[1..])
  }

  function Stem(name: seq<Octet>): (s: seq<Octet>) { name[..DotAt(name)] }

  function Ext(name: seq<Octet>): (s: seq<Octet>) { if DotAt(name) < |name| then name[DotAt(name) + 1..] else [] }

  /** to_83: eight characters before the first dot, three after it. */
  function To83(name: seq<Octet>): (r: seq<Octet>)
    ensures |r| == 11
  {
    Field(Stem(name), 8) + Field(Ext(name), 3)
  }

  /** The first byte of a name is never the end marker, and the deletion mark exactly when the name starts with it. */
  lemma FirstByte(name: seq<Octet>)
    requires forall c :: c in name ==> c != 0
    ensures To83(name)[0] != 0 && (To83(name)[0] == DELETED <==> name != [] && name[0] == DELETED)
  {
    var i := DotAt(name);
    var stem := name[..i];
    assert To83(name)[0] == Field(stem, 8)[0];
    if stem != [] { assert stem[0] == name[0] && name[0] in name; }
  }

  lemma {:induction false} FieldAt(s: seq<Octet>, n: nat, k: nat)
    requires k < n
    ensures Field(s, n)[k] == if k < |s| then Upper(s[k]) else SPACE
    decreases n
  {
    if k > 0 { FieldAt(if s == [] then [] else s[1..], n - 1, k - 1); }
  }

  /** The byte stands for the character: a small letter for its capital, any other for itself. */
  ghost predicate Capital(c: Octet, u: Octet) { u == if 0x61 <= c <= 0x7A then c - 0x20 else c }

  /**
   The eleven bytes of a name: its characters up to the first dot in front, those behind it
   from the ninth byte on, small letters as capitals, and spaces where there are none.
   */
  lemma NameBytes(name: seq<Octet>, k: nat)
    requires k < 11
    ensures var dot, b := DotAt(name), To83(name)[k];
      && (k < 8 ==> if k < dot then Capital(name[k], b) else b == 0x20)
      && (k >= 8 ==> if dot + k - 7 < |name| then Capital(name[dot + k - 7], b) else b == 0x20)
  {
    var dot, b := DotAt(name), To83(name)[k];
    FieldsAt(Stem(name), Ext(name), 8, 3, k, To83(name));
    if k < 8 { StemByte(name, k, b); } else { ExtByte(name, k - 8, b); }
  }

  lemma StemByte(name: seq<Octet>, k: nat, b: Octet)
    requires b == if k < |Stem(name)| then Upper(Stem(name)[k]) else SPACE
    ensures if k < DotAt(name) then Capital(name[k], b) else b == 0x20
  {
  }

  lemma ExtByte(name: seq<Octet>, k: nat, b: Octet)
    requires b == if k < |Ext(name)| then Upper(Ext(name)[k]) else SPACE
    ensures var dot := DotAt(name); if dot + k + 1 < |name| then Capital(name[dot + k + 1], b) else b == 0x20
  {
  }

  lemma FieldsAt(stem: seq<Octet>, ext: seq<Octet>, n: nat, m: nat, k: nat, r: seq<Octet>)
    requires k < n + m && r == Field(stem, n) + Field(ext, m)
    ensures k < n ==> r[k] == if k < |stem| then Upper(stem[k]) else SPACE
    ensures k >= n ==> r[k] == if k - n < |ext| then Upper(ext[k - n]) else SPACE
  {
    if k < n { FieldAt(stem, n, k); } else { FieldAt(ext, m, k - n); }
  }

  // ---------------------------------------------------------------------
  // Directory entries
  // ---------------------------------------------------------------------

  /** A 32-byte directory entry. */
  type Slot = s: seq<Octet> | |s| == 32 witness seq(32, _ => 0)

  function Zeros(n: nat): (r: seq<Octet>) { seq(n, _ => 0) }

  function MakeEntry(name: seq<Octet>, cluster: nat, size: nat): (e: Slot)
    requires |name| == 11
    ensures e[..11] == name && e[11] == 0x20
  {
    name + [0x20] + Zeros(8) + Bytes(cluster / 0x1_0000, 2) + Zeros(4) + Bytes(cluster % 0x1_0000, 2) + Bytes(size, 4)
  }

  function ClusterOf(e: Slot): (c: nat) {
    0x1_0000 * Number(e[20..22]) + Number(e[26..28])
  }

  function SizeOf(e: Slot): (n: nat) {
    Number(e[28..32])
  }

  /** The fields of a new entry read back. */
  lemma EntryFields(name: seq<Octet>, cluster: nat, size: nat)
    requires |name| == 11 && cluster < 0x1_0000_0000 && size < 0x1_0000_0000
    ensures ClusterOf(MakeEntry(name, cluster, size)) == cluster && SizeOf(MakeEntry(name, cluster, size)) == size
  {
    var e := MakeEntry(name, cluster, size);
    Limits();
    assert e[20..22] == Bytes(cluster / 0x1_0000, 2) && e[26..28] == Bytes(cluster % 0x1_0000, 2);
    assert e[28..32] == Bytes(size, 4);
    NumberBytes(cluster / 0x1_0000, 2);
    NumberBytes(cluster % 0x1_0000, 2);
    NumberBytes(size, 4);
  }

  /** Where they stand: the cluster's upper half, then its lower half, then the size, low bytes first. */
  lemma EntryLayout(name: seq<Octet>, cluster: nat, size: nat)
    requires |name| == 11 && cluster < 0x1_0000_0000 && size < 0x1_0000_0000
    ensures var e := MakeEntry(name, cluster, size);
      && e[..11] == name && e[11] == 0x20 && (forall k :: 12 <= k < 20 || 22 <= k < 26 ==> e[k] == 0)
      && Shift(e[20], e[21]) == cluster / 0x1_0000 && Shift(e[26], e[27]) == cluster % 0x1_0000
      && Shift(e[28], Shift(e[29], Shift(e[30], e[31]))) == size
  {
    var e, hi, lo := MakeEntry(name, cluster, size), cluster / 0x1_0000, cluster % 0x1_0000;
    assert e[20..22] == Bytes(hi, 2) && e[26..28] == Bytes(lo, 2) && e[28..32] == Bytes(size, 4);
    TwoBytes(hi, e[20..22]);
    TwoBytes(lo, e[26..28]);
    FourBytes(size, e[28..32]);
  }

  lemma TwoBytes(n: nat, b: seq<Octet>)
    requires n < 0x1_0000 && b == Bytes(n, 2)
    ensures Shift(b[0], b[1]) == n
  {
    assert b[0] == n % 256 && b[1] == Bytes(n / 256, 1)[0] == n / 256 % 256;
  }

  lemma FourBytes(n: nat, b: seq<Octet>)
    requires n < 0x1_0000_0000 && b == Bytes(n, 4)
    ensures Shift(b[0], Shift(b[1], Shift(b[2], b[3]))) == n
  {
    Limits();
    NumberBytes(n, 4);
    assert b[3..][1..] == [] && b[2..][1..] == b[3..] && b[1..][1..] == b[2..];
    assert Number(b[3..]) == b[3] && Number(b[2..]) == Shift(b[2], b[3]);
  }

  function SlotOf(s: Sector, i: nat): (e: Slot)
    requires i < 16
  {
    s[32 * i..32 * i + 32]
  }

  /** All the entries of a directory. */
  ghost function Slots(d: Disk, sectors: seq<nat>): (r: seq<Slot>)
    requires OnDisk(d, sectors)
    ensures |r| == 16 * |sectors|
    ensures forall p {:trigger r[p]} :: 0 <= p < |r| ==>
      p / 16 < |sectors| && r[p] == SlotOf(d[sectors[p / 16]], p % 16)
  {
    seq(16 * |sectors|, p requires 0 <= p < 16 * |sectors| => SlotOf(d[sectors[p / 16]], p % 16))
  }

  predicate Skipped(e: Slot) {
    e[0] == DELETED || e[11] == 0x0F || e[11] / 8 % 2 == 1
  }

  /** dir_lookup: stop at the end marker, pass over deleted entries, long names and the label. */
  ghost function Lookup(slots: seq<Slot>, target: seq<Octet>): (r: Option<Slot>)
  {
    if slots == [] || slots[0][0] == 0 then None
    else if !Skipped(slots[0]) && slots[0][..11] == target then Some(slots[0])
    else Lookup(slots[1..], target)
  }

  /**
   Slot i holds a live entry of that name: no end marker up to it, not deleted, no part of a
   long name and not the label. A directory is one as well as a file.
   */
  ghost predicate Holds(slots: seq<Slot>, target: seq<Octet>, i: nat)
    requires i < |slots|
  {
    var e := slots[i];
    && e[..11] == target && e[0] != 0xE5 && e[11] != 0x0F && e[11] / 8 % 2 == 0
    && forall k :: 0 <= k <= i ==> slots[k][0] != 0
  }

  /** Lookup finds the first live entry of the name, or there is none. */
  lemma {:induction false} LookupIs(slots: seq<Slot>, target: seq<Octet>) returns (i: nat)
    ensures Lookup(slots, target).None? ==> forall k :: 0 <= k < |slots| ==> !Holds(slots, target, k)
    ensures Lookup(slots, target).Some? ==> i < |slots| && Holds(slots, target, i)
    ensures Lookup(slots, target).Some? ==> Lookup(slots, target).value == slots[i]
    ensures Lookup(slots, target).Some? ==> forall k :: 0 <= k < i && k < |slots| ==> !Holds(slots, target, k)
  {
    i := 0;
    if slots != [] && slots[0][0] != 0 && !(!Skipped(slots[0]) && slots[0][..11] == target) {
      i := LookupIs(slots[1..], target);
      forall k | 0 < k < |slots| ensures Holds(slots, target, k) <==> Holds(slots[1..], target, k - 1) {
        HoldsLater(slots, target, k);
      }
      i := i + 1;
    }
  }

  lemma HoldsLater(slots: seq<Slot>, target: seq<Octet>, k: nat)
    requires 0 < k < |slots| && slots[0][0] != 0
    ensures Holds(slots, target, k) <==> Holds(slots[1..], target, k - 1)
  {
    var rest := slots[1..];
    assert forall j :: 0 <= j < |rest| ==> rest[j] == slots[j + 1];
    if Holds(slots, target, k) {
      forall j | 0 <= j <= k - 1 ensures rest[j][0] != 0 { assert slots[j + 1][0] != 0; }
    }
    if Holds(rest, target, k - 1) {
      forall j | 0 <= j <= k ensures slots[j][0] != 0 { if j > 0 { assert rest[j - 1][0] != 0; } }
    }
  }

  predicate IsFree(e: Slot) {
    e[0] == 0 || e[0] == DELETED
  }

  /** The first slot an entry can go into, or the number of slots. */
  ghost function FreeSlot(slots: seq<Slot>): (p: nat)
    ensures p <= |slots| && (p < |slots| ==> IsFree(slots[p])) && forall k :: 0 <= k < p ==> !IsFree(slots[k])
  {
    if slots == [] || IsFree(slots[0]) then 0 else 1 + FreeSlot(slots[1..])
  }

  /** It is the first whose name begins with 0 or 0xE5. */
  lemma FreeSlotIff(slots: seq<Slot>, p: nat)
    ensures FreeSlot(slots) == p <==>
      && p <= |slots| && (p < |slots| ==> slots[p][0] == 0 || slots[p][0] == 0xE5)
      && forall k :: 0 <= k < p ==> slots[k][0] != 0 && slots[k][0] != 0xE5
  {
    var q := FreeSlot(slots);
    if p < q { assert !IsFree(slots[p]); }
  }

  /** After the end marker there are only end markers. */
  ghost predicate Clean(slots: seq<Slot>) {
    forall i, j :: 0 <= i < j < |slots| && slots[i][0] == 0 ==> slots[j][0] == 0
  }

  lemma {:induction false} AllMissing(slots: seq<Slot>, target: seq<Octet>)
    requires forall i :: 0 <= i < |slots| ==> slots[i][0] == 0
    ensures Lookup(slots, target).None?
  {
  }

  /**
   Adding an entry under a name that was not there makes lookup find that entry,
   exactly when the entry does not look deleted from the start. One that does is passed
   over, and lookup goes on behind it.
   */
  lemma {:induction false} LookupAddedIff(slots: seq<Slot>, e: Slot, target: seq<Octet>)
    requires FreeSlot(slots) < |slots| && Lookup(slots, target).None?
    requires e[..11] == target && e[11] == 0x20 && e[0] != 0
    ensures Lookup(slots[FreeSlot(slots) := e], target)
      == if e[0] == DELETED then Lookup(slots[FreeSlot(slots) + 1..], target) else Some(e)
  {
    var p := FreeSlot(slots);
    var r := slots[p := e];
    if p == 0 {
      assert r[0] == e && r[1..] == slots[1..];
    } else {
      assert !IsFree(slots[0]);
      assert r[1..] == slots[1..][p - 1 := e] && slots[1..][p..] == slots[p + 1..];
      LookupAddedIff(slots[1..], e, target);
    }
  }

  /** Behind the first free slot of a clean directory there is nothing that was not found before. */
  lemma {:induction false} NothingBehind(slots: seq<Slot>, target: seq<Octet>)
    requires Clean(slots) && FreeSlot(slots) < |slots| && Lookup(slots, target).None?
    ensures Lookup(slots[FreeSlot(slots) + 1..], target).None?
  {
    var p := FreeSlot(slots);
    if p > 0 {
      assert slots[1..][p..] == slots[p + 1..];
      NothingBehind(slots[1..], target);
    } else if slots[0][0] == 0 {
      AllMissing(slots[1..], target);
    }
  }

  // ---------------------------------------------------------------------
  // On disk
  // ---------------------------------------------------------------------

  /** dir_add_entry: the entry goes into the first free slot. */
  ghost function AddEntry(d: Disk, sectors: seq<nat>, e: Slot): (r: Option<Disk>)
    requires OnDisk(d, sectors)
  {
    var p := FreeSlot(Slots(d, sectors));
    if p == 16 * |sectors| then None else Some(PutSlot(d, sectors, p, e))
  }

  ghost function PutSlot(d: Disk, sectors: seq<nat>, p: nat, e: Slot): (d': Disk)
    requires OnDisk(d, sectors) && p < 16 * |sectors|
    ensures |d'| == |d|
  {
    var s := sectors[p / 16];
    d[s := Put(d[s], 32 * (p % 16), e)]
  }

  /** Only that slot changes. */
  lemma SlotsPut(d: Disk, sectors: seq<nat>, p: nat, e: Slot)
    requires OnDisk(d, sectors) && Distinct(sectors) && p < 16 * |sectors|
    ensures Slots(PutSlot(d, sectors, p, e), sectors) == Slots(d, sectors)[p := e]
  {
    var d' := PutSlot(d, sectors, p, e);
    var was, now := Slots(d, sectors), Slots(d', sectors);
    forall q | 0 <= q < |was| ensures now[q] == was[p := e][q] {
      if q / 16 == p / 16 {
        OneSlot(d[sectors[p / 16]], p % 16, e, q % 16);
      } else {
        assert sectors[q / 16] != sectors[p / 16];
      }
    }
  }

  lemma OneSlot(s: Sector, i: nat, e: Slot, j: nat)
    requires i < 16 && j < 16
    ensures SlotOf(Put(s, 32 * i, e), j) == if i == j then e else SlotOf(s, j)
  {
    PutGet(s, 32 * i, e, 32 * j, 32);
  }

  /** One round of the allocation loop, on disk. */
  ghost function ExtendDisk(g: Geometry, d: Disk, cs: seq<nat>): (d': Disk)
    requires Fits(g, d) && FirstFree(Fat(g, d), 2) < g.clusters && Real(g, cs)
  {
    var c := FirstFree(Fat(g, d), 2);
    FatSet(g, d, c, LAST);
    var d1 := SetEntry(g, d, c, LAST);
    if cs == [] then d1 else
      FatSet(g, d1, cs[|cs| - 1], c);
      SetEntry(g, d1, cs[|cs| - 1], c)
  }

  ghost predicate SameData(g: Geometry, d: Disk, d': Disk) {
    |d'| == |d| && forall s :: g.dataStart <= s < |d| ==> d'[s] == d[s]
  }

  lemma ExtendDiskIs(g: Geometry, d: Disk, cs: seq<nat>)
    requires Fits(g, d) && FirstFree(Fat(g, d), 2) < g.clusters && Real(g, cs)
    ensures Fits(g, ExtendDisk(g, d, cs)) && SameData(g, d, ExtendDisk(g, d, cs))
    ensures (forall x :: x in cs ==> x < g.clusters) && Fat(g, ExtendDisk(g, d, cs)) == Extend(Fat(g, d), cs)
  {
    var c := FirstFree(Fat(g, d), 2);
    FatSet(g, d, c, LAST);
    if cs != [] { FatSet(g, SetEntry(g, d, c, LAST), cs[|cs| - 1], c); }
  }

  /** One round, with the clusters taken so far. */
  ghost function GrowRound(g: Geometry, d0: Disk, d: Disk, cs: seq<nat>): (r: (Disk, seq<nat>))
    requires Fits(g, d0) && Fits(g, d) && Grown(Fat(g, d0), Fat(g, d), cs) && |cs| < |FreeSet(Fat(g, d0))|
    ensures Fits(g, r.0) && SameData(g, d, r.0) && Grown(Fat(g, d0), Fat(g, r.0), r.1) && |r.1| == |cs| + 1
  {
    ExtendGrown(Fat(g, d0), Fat(g, d), cs);
    ExtendDiskIs(g, d, cs);
    (ExtendDisk(g, d, cs), cs + [FirstFree(Fat(g, d), 2)])
  }

  /** Rounds of it until n clusters are taken: the disk and the clusters, as long as there are enough free. */
  ghost function GrowDisk(g: Geometry, d0: Disk, d: Disk, cs: seq<nat>, n: nat): (r: (Disk, seq<nat>))
    requires Fits(g, d0) && Fits(g, d) && Grown(Fat(g, d0), Fat(g, d), cs) && |cs| <= n <= |FreeSet(Fat(g, d0))|
    decreases n - |cs|
  {
    if |cs| == n then (d, cs) else
      var r := GrowRound(g, d0, d, cs);
      GrowDisk(g, d0, r.0, r.1, n)
  }

  /** One round, and the rest of them from there. */
  lemma GrowOne(g: Geometry, d0: Disk, d: Disk, cs: seq<nat>, n: nat) returns (d': Disk, cs': seq<nat>)
    requires Fits(g, d0) && Fits(g, d) && Grown(Fat(g, d0), Fat(g, d), cs) && |cs| < n <= |FreeSet(Fat(g, d0))|
    requires FirstFree(Fat(g, d), 2) < g.clusters && Real(g, cs)
    ensures d' == ExtendDisk(g, d, cs) && cs' == cs + [FirstFree(Fat(g, d), 2)]
    ensures Fits(g, d') && SameData(g, d, d') && Grown(Fat(g, d0), Fat(g, d'), cs') && |cs'| == |cs| + 1
    ensures GrowDisk(g, d0, d, cs, n) == GrowDisk(g, d0, d', cs', n)
  {
    var r := GrowRound(g, d0, d, cs);
    d', cs' := r.0, r.1;
  }

  lemma {:induction false} GrowDiskIs(g: Geometry, d0: Disk, d: Disk, cs: seq<nat>, n: nat)
    requires Fits(g, d0) && Fits(g, d) && Grown(Fat(g, d0), Fat(g, d), cs) && |cs| <= n <= |FreeSet(Fat(g, d0))|
    requires SameData(g, d0, d)
    ensures var r := GrowDisk(g, d0, d, cs, n);
      && Fits(g, r.0) && SameData(g, d0, r.0) && |r.1| == n && Grown(Fat(g, d0), Fat(g, r.0), r.1)
    decreases n - |cs|
  {
    if |cs| < n {
      ExtendGrown(Fat(g, d0), Fat(g, d), cs);
      var d', cs' := GrowOne(g, d0, d, cs, n);
      GrowDiskIs(g, d0, d', cs', n);
    }
  }

  /** How many clusters a file of len bytes gets, in 32-bit arithmetic. */
  function Needed(len: nat, perCluster: nat): (n: nat)
    requires perCluster > 0
  {
    if len == 0 then 0 else (len + perCluster - 1) % 0x1_0000_0000 / perCluster
  }

  /**
   They hold the file, with less than a cluster to spare, exactly when the rounding
   does not overflow; when it does they hold less than the file.
   */
  lemma NeededIff(len: nat, perCluster: nat)
    requires 0 < perCluster < 0x1_0000_0000 && len < 0x1_0000_0000
    ensures len + perCluster - 1 < 0x1_0000_0000 <==> Needed(len, perCluster) * perCluster >= len
    ensures Needed(len, perCluster) * perCluster < len + perCluster
  {
    var sum := len + perCluster - 1;
    if sum < 0x1_0000_0000 {
      assert sum % 0x1_0000_0000 == sum;
      assert sum == perCluster * (sum / perCluster) + sum % perCluster;
      assert len == 0 || Needed(len, perCluster) == sum / perCluster;
    } else {
      var w := sum - 0x1_0000_0000;
      assert sum % 0x1_0000_0000 == w;
      assert w == perCluster * (w / perCluster) + w % perCluster;
      assert Needed(len, perCluster) == w / perCluster;
    }
  }

  // ---------------------------------------------------------------------
  // Creating a file
  // ---------------------------------------------------------------------

  /** It does overflow: a file of all but one byte of 4 GiB gets no cluster at all. */
  lemma NeededWraps(perCluster: nat)
    requires 2 <= perCluster < 0x1_0000_0000
    ensures Needed(0xFFFF_FFFF, perCluster) == 0
  {
    assert (0xFFFF_FFFF + perCluster - 1) % 0x1_0000_0000 == perCluster - 2;
  }

  function PerCluster(g: Geometry): (n: nat) { 512 * g.spc }

  lemma SectorsOnDisk(g: Geometry, d: Disk, cs: seq<nat>)
    requires Fits(g, d) && Real(g, cs)
    ensures OnDisk(d, Sectors(g, cs))
  {
    var r := Sectors(g, cs);
    forall i | 0 <= i < |r| ensures r[i] < |d| { var c := SectorsOf(g, d, cs, r[i]); }
  }

  lemma NothingGrown(g: Geometry, d: Disk)
    requires Fits(g, d)
    ensures Grown(Fat(g, d), Fat(g, d), []) && SameData(g, d, d)
  {
  }

  /** n clusters taken, as far as there are free ones, and the disk once they are linked. */
  ghost function Taken(g: Geometry, d: Disk, n: nat): (r: (Disk, seq<nat>))
    requires Fits(g, d)
    ensures Fits(g, r.0) && Real(g, r.1) && SameData(g, d, r.0)
    ensures |r.1| == Min(n, |FreeSet(Fat(g, d))|) && Grown(Fat(g, d), Fat(g, r.0), r.1)
  {
    var most := Min(n, |FreeSet(Fat(g, d))|);
    NothingGrown(g, d);
    GrowDiskIs(g, d, d, [], most);
    GrowDisk(g, d, d, [], most)
  }

  /** The clusters a new file of len bytes gets. */
  ghost function Allocated(g: Geometry, d: Disk, len: nat): (r: (Disk, seq<nat>))
    requires Fits(g, d)
    ensures Fits(g, r.0) && Real(g, r.1) && SameData(g, d, r.0)
    ensures |r.1| == Min(Needed(len, PerCluster(g)), |FreeSet(Fat(g, d))|) && Grown(Fat(g, d), Fat(g, r.0), r.1)
  {
    Taken(g, d, Needed(len, PerCluster(g)))
  }

  ghost function NewEntry(cs: seq<nat>, name: seq<Octet>, len: nat): (e: Slot)
    ensures |e| == 32
  {
    MakeEntry(To83(name), if cs == [] then 0 else cs[0], len)
  }

  /** The clusters a walk reaches when only so many table reads succeed. */
  ghost function Reached(cs: seq<nat>, good: nat): (r: seq<nat>)
    decreases |cs|
  {
    if cs == [] then [] else if good == 0 then [cs[0]] else [cs[0]] + Reached(cs[1..], good - 1)
  }

  /** When the reads suffice the walk reaches every cluster, otherwise one more than there are reads. */
  lemma {:induction false} ReachedIs(cs: seq<nat>, good: nat)
    ensures Reached(cs, good) == if good + 1 < |cs| then cs[..good + 1] else cs
    decreases |cs|
  {
    if cs != [] && good > 0 { ReachedIs(cs[1..], good - 1); }
  }

  /** The disk once the data is written to the clusters the walk reaches. */
  ghost function Filled(g: Geometry, d: Disk, cs: seq<nat>, src: seq<Octet>, good: nat): (d': Disk)
    requires Fits(g, d) && Real(g, cs)
    ensures |d'| == |d|
  {
    ReachedIs(cs, good);
    SectorsOnDisk(g, d, Reached(cs, good));
    WriteData(d, Sectors(g, Reached(cs, good)), src)
  }

  /**
   fat32_create in the directory whose chain is `dir`: allocate, write the data, add the
   entry. While the data is written `good` reads of the table succeed.
   */
  ghost function Create(g: Geometry, d: Disk, dir: seq<nat>, name: seq<Octet>, src: seq<Octet>, good: nat)
    : (r: (Disk, bool))
    requires Fits(g, d) && Real(g, dir)
  {
    var (d1, cs) := Allocated(g, d, |src|);
    if |cs| < Needed(|src|, PerCluster(g)) then (d1, false) else
    SectorsOnDisk(g, d1, dir);
    var d2 := Filled(g, d1, cs, src, good);
    match AddEntry(d2, Sectors(g, dir), NewEntry(cs, name, |src|))
    case None => (d2, false)
    case Some(d3) => (d3, true)
  }

  /** One entry has been added to the directory on sectors sd. */
  ghost predicate Gained(d: Disk, d': Disk, sd: seq<nat>, e: Slot) {
    && OnDisk(d, sd) && OnDisk(d', sd) && FreeSlot(Slots(d, sd)) < 16 * |sd|
    && Slots(d', sd) == Slots(d, sd)[FreeSlot(Slots(d, sd)) := e]
  }

  /** No data sector outside these has changed. */
  ghost predicate Elsewhere(g: Geometry, d: Disk, d': Disk, sc: seq<nat>, sd: seq<nat>) {
    |d'| == |d| && forall s :: g.dataStart <= s < |d| && s !in sc && s !in sd ==> d'[s] == d[s]
  }

  /** What a create leaves: clusters linked that were free, no data changed outside them and the directory. */
  ghost predicate Placed(g: Geometry, d: Disk, d': Disk, cs: seq<nat>, sc: seq<nat>, sd: seq<nat>)
    requires Fits(g, d)
  {
    Fits(g, d') && Grown(Fat(g, d), Fat(g, d'), cs) && OnDisk(d', sc) && Elsewhere(g, d, d', sc, sd)
  }

  /** One that worked: the clusters hold the file and the directory has one more entry. */
  ghost predicate Created(g: Geometry, d: Disk, d': Disk, cs: seq<nat>, sc: seq<nat>, sd: seq<nat>, e: Slot,
                          src: seq<Octet>)
    requires Fits(g, d)
  {
    Placed(g, d, d', cs, sc, sd) && ReadData(d', sc, |src|) == src && Gained(d, d', sd, e)
  }

  /** What belongs into the clusters the walk does not reach is in them already. */
  ghost predicate TailThere(g: Geometry, d: Disk, cs: seq<nat>, src: seq<Octet>, good: nat) {
    good + 1 < |cs| ==>
      var k, tail := 512 * |Sectors(g, cs[..good + 1])|, Sectors(g, cs[good + 1..]);
      k <= |src| && OnDisk(d, tail) && ReadData(d, tail, |src| - k) == src[k..]
  }

  /** Known before the call: the length does not overflow, and nothing is missing where the walk breaks off. */
  ghost predicate Complete(g: Geometry, d: Disk, cs: seq<nat>, src: seq<Octet>, good: nat) {
    |src| + PerCluster(g) - 1 < 0x1_0000_0000 && TailThere(g, d, cs, src, good)
  }

  /** How a create ends: whether it succeeds, what it leaves, and when the file reads back. */
  ghost predicate Ends(g: Geometry, d: Disk, d': Disk, ok: bool, cs: seq<nat>, sc: seq<nat>, sd: seq<nat>, e: Slot,
                       src: seq<Octet>, good: nat)
    requires Fits(g, d)
  {
    && Placed(g, d, d', cs, sc, sd) && OnDisk(d, sd)
    && (ok <==> |cs| == Needed(|src|, PerCluster(g)) && FreeSlot(Slots(d, sd)) < 16 * |sd|)
    && (ok ==> Gained(d, d', sd, e))
    && (ok ==> (ReadData(d', sc, |src|) == src <==> Complete(g, d, cs, src, good)))
    && (!ok ==> Slots(d', sd) == Slots(d, sd))
  }

  lemma DataFat(g: Geometry, d: Disk, d': Disk)
    requires Fits(g, d) && |d'| == |d| && forall s :: 0 <= s < g.dataStart && s < |d| ==> d'[s] == d[s]
    ensures Fits(g, d') && Fat(g, d') == Fat(g, d)
  {
    InTable(g, d);
    forall c | 0 <= c < g.clusters ensures Fat(g, d')[c] == Fat(g, d)[c] {
      FatAt(g, d, c);
      FatAt(g, d', c);
    }
  }

  lemma WriteKeepsTable(g: Geometry, d: Disk, cs: seq<nat>, src: seq<Octet>)
    requires Fits(g, d) && Real(g, cs)
    ensures OnDisk(d, Sectors(g, cs))
    ensures Fits(g, WriteData(d, Sectors(g, cs), src)) && Fat(g, WriteData(d, Sectors(g, cs), src)) == Fat(g, d)
  {
    SectorsOnDisk(g, d, cs);
    var d' := WriteData(d, Sectors(g, cs), src);
    forall s | 0 <= s < g.dataStart && s < |d| ensures d'[s] == d[s] {
      if s in Sectors(g, cs) { var c := SectorsOf(g, d, cs, s); }
      WriteFrame(d, Sectors(g, cs), src, s);
    }
    DataFat(g, d, d');
  }

  lemma SlotsSame(d: Disk, d': Disk, sectors: seq<nat>)
    requires OnDisk(d, sectors) && |d'| == |d| && forall i :: 0 <= i < |sectors| ==> d'[sectors[i]] == d[sectors[i]]
    ensures Slots(d', sectors) == Slots(d, sectors)
  {
    forall p | 0 <= p < 16 * |sectors| ensures Slots(d', sectors)[p] == Slots(d, sectors)[p] {
      assert d'[sectors[p / 16]] == d[sectors[p / 16]];
    }
  }

  lemma Regroup(a: nat, b: nat)
    ensures 512 * (a * b) == a * (512 * b)
  {
  }

  lemma SectorsSplit(g: Geometry, cs: seq<nat>, k: nat)
    requires k <= |cs|
    ensures Sectors(g, cs) == Sectors(g, cs[..k]) + Sectors(g, cs[k..])
    decreases k
  {
    if k > 0 {
      assert cs[1..][k - 1..] == cs[k..] && cs[1..][..k - 1] == cs[..k][1..];
      SectorsSplit(g, cs[1..], k - 1);
    } else {
      assert cs[..0] == [] && cs[0..] == cs;
    }
  }

  /** Writing the data touches only the file's sectors. */
  lemma FilledFrame(g: Geometry, d: Disk, cs: seq<nat>, src: seq<Octet>, good: nat)
    requires Fits(g, d) && Real(g, cs)
    ensures OnDisk(d, Sectors(g, cs)) && Fits(g, Filled(g, d, cs, src, good))
    ensures Fat(g, Filled(g, d, cs, src, good)) == Fat(g, d)
    ensures forall s :: 0 <= s < |d| && s !in Sectors(g, cs) ==> Filled(g, d, cs, src, good)[s] == d[s]
  {
    ReachedIs(cs, good);
    SectorsOnDisk(g, d, cs);
    var eff := Reached(cs, good);
    assert eff == cs[..|eff|];
    SectorsSplit(g, cs, |eff|);
    WriteKeepsTable(g, d, eff, src);
    forall s | 0 <= s < |d| && s !in Sectors(g, cs) ensures Filled(g, d, cs, src, good)[s] == d[s] {
      WriteFrame(d, Sectors(g, eff), src, s);
    }
  }

  /**
   Once the data is written the file reads back exactly when its length did not overflow
   and nothing is missing where the walk broke off.
   */
  lemma FilledIff(g: Geometry, d: Disk, cs: seq<nat>, src: seq<Octet>, good: nat)
    requires Fits(g, d) && Real(g, cs) && Distinct(cs) && |src| < 0x1_0000_0000 && |cs| == Needed(|src|, PerCluster(g))
    ensures OnDisk(d, Sectors(g, cs))
    ensures ReadData(Filled(g, d, cs, src, good), Sectors(g, cs), |src|) == src <==> Complete(g, d, cs, src, good)
  {
    SectorsOnDisk(g, d, cs);
    SectorsDistinct(g, d, cs);
    NeededIff(|src|, PerCluster(g));
    var room := SectorBytes(g, cs);
    if |src| + PerCluster(g) - 1 >= 0x1_0000_0000 {
      ReadLength(Filled(g, d, cs, src, good), Sectors(g, cs), |src|);
    } else if good + 1 >= |cs| {
      ReachedIs(cs, good);
      ReadBack(d, Sectors(g, cs), src);
    } else {
      PartFilled(g, d, cs, src, good);
    }
  }

  lemma SectorBytes(g: Geometry, cs: seq<nat>) returns (n: nat)
    ensures n == 512 * |Sectors(g, cs)| == |cs| * PerCluster(g)
  {
    SectorsCount(g, cs);
    Regroup(|cs|, g.spc);
    n := 512 * |Sectors(g, cs)|;
  }

  /** When only the first clusters are written, the others show what was on the disk. */
  lemma PartFilled(g: Geometry, d: Disk, cs: seq<nat>, src: seq<Octet>, good: nat)
    requires Fits(g, d) && Real(g, cs) && good + 1 < |cs| && 512 * |Sectors(g, cs)| < |src| + PerCluster(g)
    requires OnDisk(d, Sectors(g, cs)) && Distinct(Sectors(g, cs))
    ensures ReadData(Filled(g, d, cs, src, good), Sectors(g, cs), |src|) == src <==> TailThere(g, d, cs, src, good)
  {
    var a, b := Halves(g, d, cs, good + 1, |src|);
    ReachedIs(cs, good);
    WrittenPart(d, a, b, src, 512 * |a|);
  }

  lemma Halves(g: Geometry, d: Disk, cs: seq<nat>, k: nat, len: nat) returns (a: seq<nat>, b: seq<nat>)
    requires Fits(g, d) && Real(g, cs) && k < |cs| && 512 * |Sectors(g, cs)| < len + PerCluster(g)
    ensures a == Sectors(g, cs[..k]) && b == Sectors(g, cs[k..]) && Sectors(g, cs) == a + b
    ensures OnDisk(d, a) && OnDisk(d, b) && 512 * |a| <= len
  {
    a, b := Sectors(g, cs[..k]), Sectors(g, cs[k..]);
    SectorsSplit(g, cs, k);
    SectorsOnDisk(g, d, cs[..k]);
    SectorsOnDisk(g, d, cs[k..]);
    assert |b| >= g.spc;
  }

  /** The entry once it is added. */
  lemma Added(g: Geometry, d: Disk, sd: seq<nat>, e: Slot)
    requires Fits(g, d) && OnDisk(d, sd) && Distinct(sd) && (forall i :: 0 <= i < |sd| ==> g.dataStart <= sd[i])
    requires AddEntry(d, sd, e).Some?
    ensures var d' := AddEntry(d, sd, e).value;
      && |d'| == |d| && Fits(g, d') && Fat(g, d') == Fat(g, d)
      && (forall s :: 0 <= s < |d| && s !in sd ==> d'[s] == d[s])
      && Gained(d, d', sd, e)
  {
    var d' := AddEntry(d, sd, e).value;
    var p := FreeSlot(Slots(d, sd));
    SlotsPut(d, sd, p, e);
    assert sd[p / 16] in sd && g.dataStart <= sd[p / 16];
    DataFat(g, d, d');
  }

  lemma SectorsElsewhere(g: Geometry, d: Disk, dir: seq<nat>, cs: seq<nat>)
    requires Fits(g, d) && Real(g, dir) && Real(g, cs) && forall c :: c in dir ==> c !in cs
    ensures forall i :: 0 <= i < |Sectors(g, dir)| ==>
      g.dataStart <= Sectors(g, dir)[i] < |d| && Sectors(g, dir)[i] !in Sectors(g, cs)
    ensures forall i :: 0 <= i < |Sectors(g, cs)| ==> Sectors(g, cs)[i] !in Sectors(g, dir)
  {
    SectorsApart(g, d, dir, cs);
    forall i | 0 <= i < |Sectors(g, dir)|
      ensures g.dataStart <= Sectors(g, dir)[i] < |d| && Sectors(g, dir)[i] !in Sectors(g, cs)
    {
      var c := SectorsOf(g, d, dir, Sectors(g, dir)[i]);
    }
  }

  /**
   However a create ends, the clusters it took are distinct, were free and are linked,
   and no data sector outside them and the directory has changed. It succeeds exactly when
   there were enough free clusters and a free slot. Then the directory has one more entry,
   and the file reads back exactly when it is complete.
   */
  lemma CreateEnds(g: Geometry, d: Disk, root: nat, dir: seq<nat>, name: seq<Octet>, src: seq<Octet>, good: nat)
    requires Fits(g, d) && Chain(Fat(g, d), root, dir) && Real(g, dir) && |src| < 0x1_0000_0000
    ensures var cs := Allocated(g, d, |src|).1;
      var (d', ok) := Create(g, d, dir, name, src, good);
      Ends(g, d, d', ok, cs, Sectors(g, cs), Sectors(g, dir), NewEntry(cs, name, |src|), src, good)
  {
    var (d1, cs) := Allocated(g, d, |src|);
    var sc, sd, e := Sectors(g, cs), Sectors(g, dir), NewEntry(cs, name, |src|);
    Apart(g, d, d1, root, dir, cs);
    FilledFrame(g, d1, cs, src, good);
    if |cs| == Needed(|src|, PerCluster(g)) {
      FilledIff(g, d1, cs, src, good);
      SameTail(g, d, d1, cs, src, good);
      Finish(g, d, d1, Filled(g, d1, cs, src, good), cs, sc, sd, e, |src|);
    } else {
      SlotsSame(d, d1, sd);
    }
  }

  lemma Apart(g: Geometry, d: Disk, d1: Disk, root: nat, dir: seq<nat>, cs: seq<nat>)
    requires Fits(g, d) && Fits(g, d1) && Chain(Fat(g, d), root, dir) && Real(g, dir) && Real(g, cs)
    requires Grown(Fat(g, d), Fat(g, d1), cs)
    ensures OnDisk(d, Sectors(g, dir)) && Distinct(Sectors(g, dir)) && forall i :: 0 <= i < |Sectors(g, dir)| ==>
      g.dataStart <= Sectors(g, dir)[i] && Sectors(g, dir)[i] !in Sectors(g, cs)
    ensures forall i :: 0 <= i < |Sectors(g, cs)| ==> Sectors(g, cs)[i] !in Sectors(g, dir)
  {
    ChainDistinct(Fat(g, d), root, dir);
    GrownKeeps(Fat(g, d), Fat(g, d1), cs, root, dir);
    SectorsElsewhere(g, d, dir, cs);
    SectorsDistinct(g, d, dir);
  }

  lemma SameTail(g: Geometry, d: Disk, d': Disk, cs: seq<nat>, src: seq<Octet>, good: nat)
    requires Fits(g, d) && Fits(g, d') && SameData(g, d, d') && Real(g, cs)
    ensures Complete(g, d, cs, src, good) <==> Complete(g, d', cs, src, good)
  {
    if good + 1 < |cs| {
      var k, tail := 512 * |Sectors(g, cs[..good + 1])|, Sectors(g, cs[good + 1..]);
      SectorsOnDisk(g, d, cs[good + 1..]);
      forall i | 0 <= i < |tail|
        ensures d'[tail[i]] == d[tail[i]]
      {
        var c := SectorsOf(g, d, cs[good + 1..], tail[i]);
      }
      if k <= |src| { ReadFrame(d, d', tail, |src| - k); }
    }
  }

  lemma Finish(g: Geometry, d: Disk, d1: Disk, d2: Disk, cs: seq<nat>, sc: seq<nat>, sd: seq<nat>, e: Slot, n: nat)
    requires Fits(g, d) && Fits(g, d1) && Fits(g, d2) && SameData(g, d, d1) && |d2| == |d|
    requires Grown(Fat(g, d), Fat(g, d1), cs) && Fat(g, d2) == Fat(g, d1)
    requires OnDisk(d2, sc) && forall s :: 0 <= s < |d| && s !in sc ==> d2[s] == d1[s]
    requires Distinct(sd) && OnDisk(d, sd)
    requires forall i :: 0 <= i < |sd| ==> g.dataStart <= sd[i] && sd[i] !in sc
    requires forall i :: 0 <= i < |sc| ==> sc[i] !in sd
    ensures OnDisk(d2, sd)
    ensures var r := AddEntry(d2, sd, e);
      && (r.Some? <==> FreeSlot(Slots(d, sd)) < 16 * |sd|)
      && (r.None? ==> Placed(g, d, d2, cs, sc, sd) && Slots(d2, sd) == Slots(d, sd))
      && (r.Some? ==> Placed(g, d, r.value, cs, sc, sd) && Gained(d, r.value, sd, e))
      && (r.Some? ==> ReadData(r.value, sc, n) == ReadData(d2, sc, n))
  {
    SlotsSame(d, d2, sd);
    if FreeSlot(Slots(d, sd)) < 16 * |sd| {
      Added(g, d2, sd, e);
      ReadFrame(d2, AddEntry(d2, sd, e).value, sc, n);
    }
  }

  /**
   Creating a file in a directory with a free slot, on a disk with enough free clusters
   and a table that can be read, succeeds: its clusters are just enough, its bytes read
   back, and the directory gains one entry.
   */
  lemma CreateWorks(g: Geometry, d: Disk, root: nat, dir: seq<nat>, name: seq<Octet>, src: seq<Octet>, good: nat)
    requires Fits(g, d) && Chain(Fat(g, d), root, dir) && Real(g, dir) && |src| + PerCluster(g) - 1 < 0x1_0000_0000
    requires Needed(|src|, PerCluster(g)) <= Min(good + 1, |FreeSet(Fat(g, d))|)
    requires OnDisk(d, Sectors(g, dir)) && FreeSlot(Slots(d, Sectors(g, dir))) < 16 * |Sectors(g, dir)|
    ensures var cs, r := Allocated(g, d, |src|).1, Create(g, d, dir, name, src, good);
      && r.1 && Created(g, d, r.0, cs, Sectors(g, cs), Sectors(g, dir), NewEntry(cs, name, |src|), src)
      && |src| <= |cs| * PerCluster(g) < |src| + PerCluster(g)
  {
    CreateEnds(g, d, root, dir, name, src, good);
    NeededIff(|src|, PerCluster(g));
  }

  /** Without enough clusters or a slot a create is refused, and gives back none of the clusters it took. */
  lemma RefusedKeeps(g: Geometry, d: Disk, root: nat, dir: seq<nat>, name: seq<Octet>, src: seq<Octet>, good: nat)
    requires Fits(g, d) && Chain(Fat(g, d), root, dir) && Real(g, dir) && |src| < 0x1_0000_0000
    requires OnDisk(d, Sectors(g, dir))
    requires Needed(|src|, PerCluster(g)) > |FreeSet(Fat(g, d))|
      || FreeSlot(Slots(d, Sectors(g, dir))) == 16 * |Sectors(g, dir)|
    ensures var (d', ok) := Create(g, d, dir, name, src, good);
      var free := |FreeSet(Fat(g, d))|;
      !ok && Fits(g, d') && |FreeSet(Fat(g, d'))| == free - Min(Needed(|src|, PerCluster(g)), free)
  {
    CreateEnds(g, d, root, dir, name, src, good);
    GrownFree(Fat(g, d), Fat(g, Create(g, d, dir, name, src, good).0), Allocated(g, d, |src|).1);
  }

  /** Every chain there was before a create, file or directory, is the same chain after it. */
  lemma OtherChains(g: Geometry, d: Disk, d': Disk, dir: seq<nat>, cs: seq<nat>, c: nat, other: seq<nat>)
    requires Fits(g, d) && Real(g, dir) && Real(g, cs) && Placed(g, d, d', cs, Sectors(g, cs), Sectors(g, dir))
    requires Chain(Fat(g, d), c, other)
    ensures Chain(Fat(g, d'), c, other) && Real(g, other) && OnDisk(d, Sectors(g, other)) && |d'| == |d|
    ensures (forall x :: x in other ==> x !in dir) ==>
      forall n: nat :: ReadData(d', Sectors(g, other), n) == ReadData(d, Sectors(g, other), n)
  {
    GrownKeeps(Fat(g, d), Fat(g, d'), cs, c, other);
    ChainReal(g, d, c, other);
    SectorsOnDisk(g, d, other);
    if forall x :: x in other ==> x !in dir {
      SectorsElsewhere(g, d, other, cs);
      SectorsElsewhere(g, d, other, dir);
      SameReads(g, d, d', Sectors(g, cs), Sectors(g, dir), Sectors(g, other));
    }
  }

  lemma ChainReal(g: Geometry, d: Disk, c: nat, other: seq<nat>)
    requires Fits(g, d) && Chain(Fat(g, d), c, other)
    ensures Real(g, other)
  {
    ChainTaken(Fat(g, d), c, other);
    forall k | 0 <= k < |other| ensures 2 <= other[k] < g.clusters { assert other[k] in other; }
  }

  lemma SameReads(g: Geometry, d: Disk, d': Disk, sc: seq<nat>, sd: seq<nat>, so: seq<nat>)
    requires Elsewhere(g, d, d', sc, sd) && OnDisk(d, so)
    requires forall i :: 0 <= i < |so| ==> g.dataStart <= so[i] && so[i] !in sc && so[i] !in sd
    ensures forall n: nat :: ReadData(d', so, n) == ReadData(d, so, n)
  {
    forall n: nat ensures ReadData(d', so, n) == ReadData(d, so, n) { ReadFrame(d, d', so, n); }
  }

  /** The new file's chain starts where its entry says. */
  lemma NewChain(f0: seq<nat>, f: seq<nat>, cs: seq<nat>, name: seq<Octet>, len: nat)
    requires Grown(f0, f, cs) && len < 0x1_0000_0000
    ensures SizeOf(NewEntry(cs, name, len)) == len
    ensures cs != [] ==> Chain(f, ClusterOf(NewEntry(cs, name, len)), cs)
  {
    EntryFields(To83(name), if cs == [] then 0 else cs[0], len);
    if cs != [] {
      GrownChain(f0, f, cs, 0);
      assert cs[0..] == cs;
    }
  }

  /**
   A name that was not in the directory is found afterwards, exactly when it does not start
   with the deletion mark. Otherwise lookup goes on behind the new entry, where a clean
   directory has nothing.
   */
  lemma FoundIff(d: Disk, d': Disk, sd: seq<nat>, cs: seq<nat>, name: seq<Octet>, len: nat)
    requires Gained(d, d', sd, NewEntry(cs, name, len)) && Lookup(Slots(d, sd), To83(name)).None?
    requires forall c :: c in name ==> c != 0
    ensures Lookup(Slots(d', sd), To83(name)) ==
      if name != [] && name[0] == DELETED then Lookup(Slots(d, sd)[FreeSlot(Slots(d, sd)) + 1..], To83(name))
      else Some(NewEntry(cs, name, len))
    ensures Clean(Slots(d, sd)) && name != [] && name[0] == DELETED ==> Lookup(Slots(d', sd), To83(name)).None?
  {
    var e := NewEntry(cs, name, len);
    FirstByte(name);
    assert e[0] == e[..11][0];
    LookupAddedIff(Slots(d, sd), e, To83(name));
    if Clean(Slots(d, sd)) { NothingBehind(Slots(d, sd), To83(name)); }
  }
}
