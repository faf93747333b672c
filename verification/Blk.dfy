/**
 The block driver's request path: a transfer is cut into requests the device can
 take, a request into segments, and what the device moves segment by segment is
 exactly the range asked for.
 */
module Blk {
  import opened Arith
  import opened Common
  import opened Virtqueue

  /** Device limits after bring-up has raised them to what one sector needs. */
  datatype Limits = Limits(segMax: nat, sizeMax: nat)

  /** The clamp at the end of bring-up, whatever 32-bit limits the device offers. */
  function Clamp(segMax: nat, sizeMax: nat): (l: Limits)
    requires sizeMax < 0x1_0000_0000
    ensures Clamped(l) && (segMax >= 3 ==> l.segMax == segMax) && (sizeMax >= 512 ==> l.sizeMax == sizeMax)
    ensures (segMax < 3 ==> l.segMax == 3) && (sizeMax < 512 ==> l.sizeMax == 512)
  {
    Limits(if segMax < 3 then 3 else segMax, if sizeMax < 512 then 512 else sizeMax)
  }

  ghost predicate Clamped(l: Limits) { 3 <= l.segMax && 512 <= l.sizeMax < 0x1_0000_0000 }

  /** blk_max_data_segs: header and status take two segments. */
  function DataSegs(l: Limits): (n: nat)
    requires l.segMax >= 2
  {
    Min(l.segMax - 2, 126)
  }

  /** The most sectors one request carries, truncated to 32 bits. */
  function MaxSectors(l: Limits): (n: nat)
    requires l.segMax >= 2
    ensures n > 0
  {
    var n := DataSegs(l) * l.sizeMax / 512 % 0x1_0000_0000;
    if n == 0 then 1 else n
  }

  /** The truncation never bites and a full request fits the segments. */
  lemma MaxSectorsFit(l: Limits)
    requires Clamped(l)
    ensures MaxSectors(l) * 512 <= DataSegs(l) * l.sizeMax && MaxSectors(l) == DataSegs(l) * l.sizeMax / 512
  {
    var k := DataSegs(l);
    assert 1 <= k <= 126;
    Grow(k, l.sizeMax);
    var p := k * l.sizeMax;
    assert 512 <= p < 126 * 0x1_0000_0000;
    assert p / 512 < 0x1_0000_0000;
  }

  lemma Grow(k: nat, m: nat)
    requires 1 <= k <= 126
    ensures m <= k * m <= 126 * m
  {
    MulSign(1, 1);
    assert k * m == m + (k - 1) * m && 126 * m == k * m + (126 - k) * m;
  }

  // ---------------------------------------------------------------------
  // Cutting
  // ---------------------------------------------------------------------

  /** A stretch of a range: where it starts and how much. */
  datatype Piece = Piece(start: nat, len: nat)

  /** Cut `count` units from `start` into pieces of at most `most`. */
  function Cut(start: nat, count: nat, most: nat): (r: seq<Piece>)
    requires most > 0
    decreases count
  {
    if count == 0 then [] else
      var n := Min(count, most);
      [Piece(start, n)] + Cut(start + n, count - n, most)
  }

  /** The pieces follow each other from lo to hi without gap or overlap. */
  ghost predicate Tiles(r: seq<Piece>, lo: nat, hi: nat) {
    if r == [] then lo == hi else r[0].start == lo && r[0].len > 0 && Tiles(r[1..], lo + r[0].len, hi)
  }

  lemma {:induction false} CutTiles(start: nat, count: nat, most: nat)
    requires most > 0
    ensures Tiles(Cut(start, count, most), start, start + count)
    ensures forall p :: p in Cut(start, count, most) ==> 0 < p.len <= most
    decreases count
  {
    if count > 0 {
      var n := Min(count, most);
      CutTiles(start + n, count - n, most);
      assert Cut(start, count, most)[1..] == Cut(start + n, count - n, most);
    }
  }

  /** A range of at most k times the most is cut into at most k pieces. */
  lemma {:induction false} CutCount(start: nat, count: nat, most: nat, k: nat)
    requires most > 0 && count <= k * most
    ensures |Cut(start, count, most)| <= k
    decreases count
  {
    if count > 0 {
      assert k > 0;
      var n := Min(count, most);
      assert k * most == (k - 1) * most + most;
      if n < most { assert count - n == 0; }
      CutCount(start + n, count - n, most, k - 1);
    }
  }

  // ---------------------------------------------------------------------
  // One request
  // ---------------------------------------------------------------------

  datatype Kind = In | Out | Flush

  const F_WRITE: bv16 := 2

  /** A segment of the data: the device writes it on a read and reads it on a write. */
  function DataSeg(kind: Kind, p: Piece): (s: Seg) { Seg(p.start, p.len, if kind.In? then F_WRITE else 0) }

  function DataChain(kind: Kind, pieces: seq<Piece>): (r: seq<Seg>) {
    if pieces == [] then [] else [DataSeg(kind, pieces[0])] + DataChain(kind, pieces[1..])
  }

  /** Header, so many bytes of data, status byte. */
  function ChainOf(kind: Kind, hdr: nat, buf: nat, status: nat, bytes: nat, sizeMax: nat): (r: seq<Seg>)
    requires sizeMax > 0
  {
    var data := if kind.Flush? then [] else DataChain(kind, Cut(buf, bytes, sizeMax));
    [Seg(hdr, 16, 0)] + data + [Seg(status, 1, F_WRITE)]
  }

  /** The whole chain of a request for so many sectors. */
  function RequestChain(kind: Kind, hdr: nat, buf: nat, status: nat, sectors: nat, sizeMax: nat): (r: seq<Seg>)
    requires sizeMax > 0
  {
    ChainOf(kind, hdr, buf, status, sectors * 512, sizeMax)
  }

  lemma {:induction false} DataChainIs(kind: Kind, pieces: seq<Piece>)
    ensures |DataChain(kind, pieces)| == |pieces|
    ensures forall i :: 0 <= i < |pieces| ==>
      DataChain(kind, pieces)[i] == DataSeg(kind, pieces[i])
  {
    if pieces != [] { DataChainIs(kind, pieces[1..]); }
  }

  lemma {:induction false} DataChainConcat(kind: Kind, a: seq<Piece>, b: seq<Piece>)
    ensures DataChain(kind, a + b) == DataChain(kind, a) + DataChain(kind, b)
  {
    if a == [] {
      assert a + b == b;
    } else {
      var rest := a[1..];
      assert (a + b)[1..] == rest + b && (a + b)[0] == a[0];
      DataChainConcat(kind, rest, b);
      var x, y, z := [DataSeg(kind, a[0])], DataChain(kind, rest), DataChain(kind, b);
      assert x + (y + z) == (x + y) + z;
    }
  }

  lemma OneMore(kind: Kind, built: seq<Piece>, piece: Piece, remaining: nat, sizeMax: nat)
    requires sizeMax > 0 && remaining > 0 && piece.len == Min(remaining, sizeMax)
    ensures DataChain(kind, built + [piece]) == DataChain(kind, built) + [DataSeg(kind, piece)]
    ensures built + Cut(piece.start, remaining, sizeMax)
      == (built + [piece]) + Cut(piece.start + piece.len, remaining - piece.len, sizeMax)
  {
    OnePiece(kind, built, piece);
    CutFirst(piece.start, remaining, sizeMax, piece);
    var rest := Cut(piece.start + piece.len, remaining - piece.len, sizeMax);
    assert built + ([piece] + rest) == (built + [piece]) + rest;
  }

  lemma OnePiece(kind: Kind, built: seq<Piece>, piece: Piece)
    ensures DataChain(kind, built + [piece]) == DataChain(kind, built) + [DataSeg(kind, piece)]
  {
    DataChainConcat(kind, built, [piece]);
    assert [piece][1..] == [];
  }

  lemma CutFirst(start: nat, n: nat, most: nat, piece: Piece)
    requires most > 0 && n > 0 && piece == Piece(start, Min(n, most))
    ensures Cut(start, n, most) == [piece] + Cut(start + piece.len, n - piece.len, most)
  {
  }

  /** blk_submit_once up to the doorbell: the loop that fills the segment array. */
  method BuildChain(kind: Kind, hdr: nat, buf: nat, status: nat, sectors: nat, sizeMax: nat) returns (segs: seq<Seg>)
    requires sizeMax > 0
    ensures segs == ChainOf(kind, hdr, buf, status, sectors * 512 % 0x1_0000_0000, sizeMax)
    ensures segs == RequestChain(kind, hdr, buf, status, sectors, sizeMax) <==>
      kind.Flush? || sectors * 512 < 0x1_0000_0000
  {
    segs := [Seg(hdr, 16, 0)];
    var bytes: nat := sectors * 512 % 0x1_0000_0000;
    if kind != Flush {
      var data := BuildData(kind, buf, bytes, sizeMax);
      segs := segs + data;
    }
    segs := segs + [Seg(status, 1, F_WRITE)];
    SameChainIff(kind, hdr, buf, status, bytes, sectors * 512, sizeMax);
  }

  /** The loop over the data. */
  method BuildData(kind: Kind, buf: nat, bytes: nat, sizeMax: nat) returns (segs: seq<Seg>)
    requires sizeMax > 0
    ensures segs == DataChain(kind, Cut(buf, bytes, sizeMax))
  {
    segs := [];
    var remaining: nat, offset: nat := bytes, 0;
    ghost var built := [];
    while remaining > 0
      invariant segs == DataChain(kind, built)
      invariant built + Cut(buf + offset, remaining, sizeMax) == Cut(buf, bytes, sizeMax)
    {
      var chunk := if remaining < sizeMax then remaining else sizeMax;
      ghost var piece := Piece(buf + offset, chunk);
      OneMore(kind, built, piece, remaining, sizeMax);
      segs := segs + [Seg(buf + offset, chunk, if kind == In then F_WRITE else 0)];
      built := built + [piece];
      offset, remaining := offset + chunk, remaining - chunk;
    }
    assert built + [] == built;
  }

  /** How many bytes a chain moves. */
  function Carried(segs: seq<Seg>): (n: nat) {
    if segs == [] then 0 else segs[0].len + Carried(segs[1..])
  }

  lemma {:induction false} CutCarried(kind: Kind, start: nat, n: nat, most: nat)
    requires most > 0
    ensures Carried(DataChain(kind, Cut(start, n, most))) == n
    decreases n
  {
    if n > 0 {
      var k := Min(n, most);
      var cut := Cut(start, n, most);
      assert cut[0] == Piece(start, k) && cut[1..] == Cut(start + k, n - k, most);
      CutCarried(kind, start + k, n - k, most);
      var chain := DataChain(kind, cut);
      assert chain[1..] == DataChain(kind, cut[1..]);
    }
  }

  /** Chains for different numbers of bytes differ, unless they carry no data at all. */
  lemma SameChainIff(kind: Kind, hdr: nat, buf: nat, status: nat, a: nat, b: nat, sizeMax: nat)
    requires sizeMax > 0
    ensures ChainOf(kind, hdr, buf, status, a, sizeMax) == ChainOf(kind, hdr, buf, status, b, sizeMax) <==>
      kind.Flush? || a == b
  {
    var x, y := ChainOf(kind, hdr, buf, status, a, sizeMax), ChainOf(kind, hdr, buf, status, b, sizeMax);
    if !kind.Flush? {
      CutCarried(kind, buf, a, sizeMax);
      CutCarried(kind, buf, b, sizeMax);
      assert x[1..|x| - 1] == DataChain(kind, Cut(buf, a, sizeMax));
      assert y[1..|y| - 1] == DataChain(kind, Cut(buf, b, sizeMax));
    }
  }

  /** It happens: limits that let 4 GiB into one request, and then the chain carries none of them. */
  lemma HugeRequestEmpty(kind: Kind, hdr: nat, buf: nat, status: nat)
    ensures var l := Limits(128, 0xFFFF_FFFF);
      && Clamped(l) && 0x80_0000 <= MaxSectors(l)
      && ChainOf(kind, hdr, buf, status, 0x80_0000 * 512 % 0x1_0000_0000, l.sizeMax)
         == [Seg(hdr, 16, 0), Seg(status, 1, F_WRITE)]
  {
    assert DataChain(kind, []) == [] && Cut(buf, 0, 0xFFFF_FFFF) == [];
  }

  /** A request of at most the maximal size stays within both device limits and the segment array. */
  lemma ChainFits(l: Limits, kind: Kind, hdr: nat, buf: nat, status: nat, sectors: nat)
    requires Clamped(l) && sectors <= MaxSectors(l)
    ensures var r := RequestChain(kind, hdr, buf, status, sectors, l.sizeMax);
      && 2 <= |r| <= l.segMax && |r| <= MAX_SIZE
      && forall i :: 1 <= i < |r| - 1 ==> 0 < r[i].len <= l.sizeMax
  {
    MaxSectorsFit(l);
    var pieces := Cut(buf, sectors * 512, l.sizeMax);
    CutCount(buf, sectors * 512, l.sizeMax, DataSegs(l));
    CutTiles(buf, sectors * 512, l.sizeMax);
    DataChainIs(kind, pieces);
    var r := RequestChain(kind, hdr, buf, status, sectors, l.sizeMax);
    forall i | 1 <= i < |r| - 1 ensures 0 < r[i].len <= l.sizeMax {
      assert r[i] == DataChain(kind, pieces)[i - 1] && pieces[i - 1] in pieces;
    }
  }

  /** It is the largest that does. */
  lemma ChainFitsIff(l: Limits, kind: Kind, hdr: nat, buf: nat, status: nat, sectors: nat)
    requires Clamped(l) && !kind.Flush?
    ensures sectors <= MaxSectors(l) <==>
      var n := |RequestChain(kind, hdr, buf, status, sectors, l.sizeMax)|; n <= l.segMax && n <= 128
  {
    var pieces := Cut(buf, sectors * 512, l.sizeMax);
    DataChainIs(kind, pieces);
    var n := |RequestChain(kind, hdr, buf, status, sectors, l.sizeMax)|;
    assert n == |pieces| + 2;
    if sectors <= MaxSectors(l) {
      ChainFits(l, kind, hdr, buf, status, sectors);
    }
    if n <= l.segMax && n <= 128 { FewPieces(l, buf, sectors); }
  }

  lemma FewPieces(l: Limits, buf: nat, sectors: nat)
    requires Clamped(l) && |Cut(buf, sectors * 512, l.sizeMax)| <= DataSegs(l)
    ensures sectors <= MaxSectors(l)
  {
    CutNeeds(buf, sectors * 512, l.sizeMax, DataSegs(l));
    MaxSectorsFit(l);
  }

  /** k pieces of at most `most` carry no more than k times that. */
  lemma {:induction false} CutNeeds(start: nat, count: nat, most: nat, k: nat)
    requires most > 0 && |Cut(start, count, most)| <= k
    ensures count <= k * most
    decreases count
  {
    if count > 0 {
      var n := Min(count, most);
      CutNeeds(start + n, count - n, most, k - 1);
      assert k * most == (k - 1) * most + most;
    }
  }

  /** The descriptors of a request: a header to read, data to write exactly when reading, a status byte to write. */
  lemma RequestIs(kind: Kind, hdr: nat, buf: nat, status: nat, sectors: nat, sizeMax: nat, i: nat)
    requires sizeMax > 0 && i < |RequestChain(kind, hdr, buf, status, sectors, sizeMax)|
    ensures var r := RequestChain(kind, hdr, buf, status, sectors, sizeMax);
      && r[0] == Seg(hdr, 16, 0) && r[|r| - 1] == Seg(status, 1, 2)
      && (0 < i < |r| - 1 ==> r[i].flags == if kind.In? then 2 else 0)
  {
    var pieces := Cut(buf, sectors * 512, sizeMax);
    DataChainIs(kind, pieces);
  }

  // ---------------------------------------------------------------------
  // What the device moves
  // ---------------------------------------------------------------------

  predicate DeviceWrites(seg: Seg) { seg.flags & F_WRITE != 0 }

  function Part(seg: Seg, writable: bool): (r: seq<Piece>) {
    if DeviceWrites(seg) == writable then [Piece(seg.pa, seg.len)] else []
  }

  /** The parts of a chain the device may write, or those it may read, in order. */
  function Parts(chain: seq<Seg>, writable: bool): (r: seq<Piece>) {
    if chain == [] then [] else Part(chain[0], writable) + Parts(chain[1..], writable)
  }

  function Total(pieces: seq<Piece>): (n: nat) {
    if pieces == [] then 0 else pieces[0].len + Total(pieces[1..])
  }

  ghost predicate Within(pieces: seq<Piece>, n: nat) {
    forall i :: 0 <= i < |pieces| ==> pieces[i].start + pieces[i].len <= n
  }

  function Copy(buf: seq<Octet>, at: nat, data: seq<Octet>): (r: seq<Octet>)
    requires at + |data| <= |buf|
    ensures |r| == |buf| && forall a :: 0 <= a < |r| ==> r[a] == if at <= a < at + |data| then data[a - at] else buf[a]
  {
    seq(|buf|, a requires 0 <= a < |buf| => if at <= a < at + |data| then data[a - at] else buf[a])
  }

  /** The device fills pieces of memory from a run of bytes. */
  ghost function Scatter(mem: seq<Octet>, pieces: seq<Piece>, data: seq<Octet>): (mem': seq<Octet>)
    requires Within(pieces, |mem|) && Total(pieces) == |data|
    ensures |mem'| == |mem|
    decreases |pieces|
  {
    if pieces == [] then mem else
      var p := pieces[0];
      Scatter(Copy(mem, p.start, data[..p.len]), pieces[1..], data[p.len..])
  }

  /** The device takes the bytes of pieces of memory in turn. */
  ghost function Gather(mem: seq<Octet>, pieces: seq<Piece>): (data: seq<Octet>)
    requires Within(pieces, |mem|)
    ensures |data| == Total(pieces)
    decreases |pieces|
  {
    if pieces == [] then [] else
      var p := pieces[0];
      mem[p.start..p.start + p.len] + Gather(mem, pieces[1..])
  }

  lemma {:induction false} PartsConcat(a: seq<Seg>, b: seq<Seg>, writable: bool)
    ensures Parts(a + b, writable) == Parts(a, writable) + Parts(b, writable)
  {
    if a == [] {
      assert a + b == b;
    } else {
      PartsConcat(a[1..], b, writable);
      assert (a + b)[0] == a[0] && (a + b)[1..] == a[1..] + b;
      PartsAssoc(Part(a[0], writable), Parts(a[1..], writable), Parts(b, writable));
    }
  }

  lemma PartsAssoc(a: seq<Piece>, b: seq<Piece>, c: seq<Piece>)
    ensures a + (b + c) == (a + b) + c
  {
  }

  lemma {:induction false} DataParts(kind: Kind, pieces: seq<Piece>)
    ensures Parts(DataChain(kind, pieces), kind.In?) == pieces && Parts(DataChain(kind, pieces), !kind.In?) == []
  {
    if pieces != [] {
      DataParts(kind, pieces[1..]);
      assert DataChain(kind, pieces)[1..] == DataChain(kind, pieces[1..]);
    }
  }

  /** What the device finds in a request's chain: the data lies between header and status byte. */
  lemma ChainParts(kind: Kind, hdr: nat, buf: nat, status: nat, sectors: nat, sizeMax: nat)
    requires sizeMax > 0 && !kind.Flush?
    ensures var chain, data := RequestChain(kind, hdr, buf, status, sectors, sizeMax), Cut(buf, sectors * 512, sizeMax);
      && Parts(chain, true) == (if kind.In? then data else []) + [Piece(status, 1)]
      && Parts(chain, false) == [Piece(hdr, 16)] + if kind.In? then [] else data
  {
    var data := DataChain(kind, Cut(buf, sectors * 512, sizeMax));
    DataParts(kind, Cut(buf, sectors * 512, sizeMax));
    PartsConcat([Seg(hdr, 16, 0)] + data, [Seg(status, 1, F_WRITE)], true);
    PartsConcat([Seg(hdr, 16, 0)] + data, [Seg(status, 1, F_WRITE)], false);
    PartsConcat([Seg(hdr, 16, 0)], data, true);
    PartsConcat([Seg(hdr, 16, 0)], data, false);
  }

  lemma {:induction false} TilesTotal(pieces: seq<Piece>, lo: nat, hi: nat, n: nat)
    requires Tiles(pieces, lo, hi) && hi <= n
    ensures lo <= hi && Total(pieces) == hi - lo && Within(pieces, n)
    decreases |pieces|
  {
    if pieces != [] {
      TilesTotal(pieces[1..], lo + pieces[0].len, hi, n);
      forall i | 0 <= i < |pieces| ensures pieces[i].start + pieces[i].len <= n {
        if i > 0 { assert pieces[i] == pieces[1..][i - 1]; }
      }
    }
  }

  lemma {:induction false} TotalConcat(a: seq<Piece>, b: seq<Piece>)
    ensures Total(a + b) == Total(a) + Total(b)
  {
    if a == [] { assert a + b == b; } else { TotalConcat(a[1..], b); assert (a + b)[1..] == a[1..] + b; }
  }

  lemma ScatterOne(mem: seq<Octet>, p: Piece, data: seq<Octet>)
    requires p.start + p.len <= |mem| && |data| == p.len
    ensures Within([p], |mem|) && Total([p]) == |data| && Scatter(mem, [p], data) == Copy(mem, p.start, data)
  {
    assert [p][1..] == [] && data[..p.len] == data && data[p.len..] == [];
  }

  lemma ScatterFirst(mem: seq<Octet>, pieces: seq<Piece>, last: Piece, data: seq<Octet>)
    returns (mem1: seq<Octet>, data1: seq<Octet>)
    requires pieces != [] && Within(pieces + [last], |mem|) && Total(pieces + [last]) == |data|
    ensures Within(pieces[1..] + [last], |mem1|) && Total(pieces[1..] + [last]) == |data1|
    ensures Scatter(mem, pieces + [last], data) == Scatter(mem1, pieces[1..] + [last], data1)
    ensures var p := pieces[0]; p.len <= |data| && mem1 == Copy(mem, p.start, data[..p.len]) && data1 == data[p.len..]
  {
    var p, all := pieces[0], pieces + [last];
    assert all[0] == p && all[1..] == pieces[1..] + [last];
    mem1, data1 := Copy(mem, p.start, data[..p.len]), data[p.len..];
    forall i | 0 <= i < |all[1..]|
      ensures all[1..][i].start + all[1..][i].len <= |mem1|
    {
      assert all[1..][i] == all[i + 1];
    }
  }

  /** Filling a tiled range writes the data there in order, then the byte behind it to its own place. */
  lemma {:induction false} ScatterAt(mem: seq<Octet>, pieces: seq<Piece>, lo: nat, hi: nat, last: Piece,
                                     data: seq<Octet>, a: nat)
    requires Tiles(pieces, lo, hi) && lo <= hi <= |mem| && last.len == 1 && last.start < |mem|
    requires !(lo <= last.start < hi)
    requires |data| == hi - lo + 1 && a < |mem| && Within(pieces + [last], |mem|) && Total(pieces + [last]) == |data|
    ensures Scatter(mem, pieces + [last], data)[a] ==
      if a == last.start then data[hi - lo] else if lo <= a < hi then data[a - lo] else mem[a]
    decreases |pieces|
  {
    if pieces == [] {
      assert pieces + [last] == [last];
      ScatterOne(mem, last, data);
    } else {
      TilesTotal(pieces, lo, hi, |mem|);
      var n := pieces[0].len;
      var mem1, data1 := ScatterFirst(mem, pieces, last, data);
      TilesTotal(pieces[1..], lo + n, hi, |mem|);
      ScatterAt(mem1, pieces[1..], lo + n, hi, last, data1, a);
      LaterByte(mem, mem1, data, data1, lo, hi, n, last.start, a);
    }
  }

  lemma LaterByte(mem: seq<Octet>, mem1: seq<Octet>, data: seq<Octet>, data1: seq<Octet>, lo: nat, hi: nat, n: nat,
                  status: nat, a: nat)
    requires lo + n <= hi <= |mem| && |data| == hi - lo + 1 && a < |mem| && !(lo <= status < hi)
    requires mem1 == Copy(mem, lo, data[..n]) && data1 == data[n..]
    ensures (if a == status then data1[hi - (lo + n)] else if lo + n <= a < hi then data1[a - (lo + n)] else mem1[a])
         == if a == status then data[hi - lo] else if lo <= a < hi then data[a - lo] else mem[a]
  {
  }

  /** The bytes of a tiled range are gathered as they lie. */
  lemma {:induction false} GatherIs(mem: seq<Octet>, pieces: seq<Piece>, lo: nat, hi: nat)
    requires Tiles(pieces, lo, hi) && lo <= hi <= |mem|
    ensures Within(pieces, |mem|) && Gather(mem, pieces) == mem[lo..hi]
    decreases |pieces|
  {
    TilesTotal(pieces, lo, hi, |mem|);
    if pieces != [] {
      TilesTotal(pieces[1..], lo + pieces[0].len, hi, |mem|);
      GatherIs(mem, pieces[1..], lo + pieces[0].len, hi);
    }
  }

  // ---------------------------------------------------------------------
  // A whole transfer
  // ---------------------------------------------------------------------

  /** One request: its first sector, the address of its part of the buffer, and how many sectors. */
  datatype Request = Request(sector: nat, addr: nat, count: nat)

  /** The requests of a transfer of `count` sectors, at most `most` at a time. */
  function Requests(sector: nat, buf: nat, count: nat, most: nat): (r: seq<Request>)
    requires most > 0
    decreases count
  {
    if count == 0 then [] else
      var n := Min(count, most);
      [Request(sector, buf, n)] + Requests(sector + n, buf + n * 512, count - n, most)
  }

  /** Header and status byte of the driver, the segment limit, and what is transferred. */
  datatype Setting = Setting(kind: Kind, hdr: nat, status: nat, sizeMax: nat)

  /** The request can be served: its data and the driver's words lie in memory, apart, and its sectors on the disk. */
  ghost predicate Servable(c: Setting, disk: seq<Octet>, mem: seq<Octet>, r: Request) {
    && c.sizeMax > 0 && !c.kind.Flush? && (r.sector + r.count) * 512 <= |disk| && r.addr + r.count * 512 <= |mem|
    && c.hdr + 16 <= |mem| && c.status < |mem| && !(r.addr <= c.status < r.addr + r.count * 512)
  }

  /**
   The device serves a request by the parts of its chain: a read fills those it may
   write with the n bytes at `at` and a status of zero; a write takes the n bytes from
   those it may read, behind the header, and writes the status.
   */
  ghost function ServeBy(kind: Kind, disk: seq<Octet>, mem: seq<Octet>, at: nat, n: nat, readable: seq<Piece>,
                         writable: seq<Piece>)
    : (s: (seq<Octet>, seq<Octet>))
    requires Within(readable, |mem|) && Within(writable, |mem|) && at + n <= |disk|
    requires Total(writable) == 1 + (if kind.In? then n else 0) && Total(readable) == 16 + (if kind.In? then 0 else n)
    ensures |s.0| == |disk| && |s.1| == |mem|
  {
    if kind.In? then (disk, Scatter(mem, writable, disk[at..at + n] + [0]))
    else (Copy(disk, at, Gather(mem, readable)[16..]), Scatter(mem, writable, [0]))
  }

  /** The device serves a request of the driver. */
  ghost function Serve(c: Setting, disk: seq<Octet>, mem: seq<Octet>, r: Request): (s: (seq<Octet>, seq<Octet>))
    requires Servable(c, disk, mem, r)
    ensures |s.0| == |disk| && |s.1| == |mem|
  {
    var chain := RequestChain(c.kind, c.hdr, r.addr, c.status, r.count, c.sizeMax);
    ServeParts(c, disk, mem, r);
    ServeBy(c.kind, disk, mem, r.sector * 512, r.count * 512, Parts(chain, false), Parts(chain, true))
  }

  lemma ServeParts(c: Setting, disk: seq<Octet>, mem: seq<Octet>, r: Request)
    requires Servable(c, disk, mem, r)
    ensures var chain := RequestChain(c.kind, c.hdr, r.addr, c.status, r.count, c.sizeMax);
      && Within(Parts(chain, false), |mem|) && Within(Parts(chain, true), |mem|)
      && Total(Parts(chain, true)) == 1 + (if c.kind.In? then r.count * 512 else 0)
      && Total(Parts(chain, false)) == 16 + (if c.kind.In? then 0 else r.count * 512)
  {
    var n := r.count * 512;
    var data := Cut(r.addr, n, c.sizeMax);
    ChainParts(c.kind, c.hdr, r.addr, c.status, r.count, c.sizeMax);
    CutTiles(r.addr, n, c.sizeMax);
    TilesTotal(data, r.addr, r.addr + n, |mem|);
    PartsTotal(data, c.hdr, c.status, n, |mem|);
  }

  lemma PartsTotal(data: seq<Piece>, hdr: nat, status: nat, n: nat, size: nat)
    requires Within(data, size) && Total(data) == n && hdr + 16 <= size && status < size
    ensures Within(data + [Piece(status, 1)], size) && Total(data + [Piece(status, 1)]) == 1 + n
    ensures Within([Piece(hdr, 16)] + data, size) && Total([Piece(hdr, 16)] + data) == 16 + n
    ensures [] + [Piece(status, 1)] == [Piece(status, 1)] && Total([Piece(status, 1)]) == 1
    ensures [Piece(hdr, 16)] + [] == [Piece(hdr, 16)] && Total([Piece(hdr, 16)]) == 16
  {
    TotalConcat(data, [Piece(status, 1)]);
    TotalConcat([Piece(hdr, 16)], data);
    assert [Piece(status, 1)][1..] == [] && [Piece(hdr, 16)][1..] == [];
  }

  /** The byte at a once a run of bytes has been laid over `old` at lo, and a zero status written. */
  ghost predicate Laid(was: seq<Octet>, now: seq<Octet>, lo: nat, src: seq<Octet>, from: nat, n: nat, status: nat) {
    && |now| == |was| && lo + n <= |was| && from + n <= |src|
    && forall a: nat :: a < |was| ==>
      now[a] == if a == status then 0 else if lo <= a < lo + n then src[from + (a - lo)] else was[a]
  }

  /** A served read leaves the sectors in its part of the buffer, a zero status, and all else alone. */
  lemma ServeReads(c: Setting, disk: seq<Octet>, mem: seq<Octet>, r: Request) returns (mem': seq<Octet>)
    requires Servable(c, disk, mem, r) && c.kind.In?
    ensures Serve(c, disk, mem, r) == (disk, mem')
    ensures Laid(mem, mem', r.addr, disk, r.sector * 512, r.count * 512, c.status)
  {
    var at, n := r.sector * 512, r.count * 512;
    var data := Cut(r.addr, n, c.sizeMax);
    CutTiles(r.addr, n, c.sizeMax);
    ReadsBy(disk, mem, at, n, data, r.addr, c.status);
    mem' := Scatter(mem, data + [Piece(c.status, 1)], disk[at..at + n] + [0]);
    var readable, writable := ServeUses(c, disk, mem, r, at, n);
  }

  /** Serving by the parts of the request's own chain. */
  lemma ServeUses(c: Setting, disk: seq<Octet>, mem: seq<Octet>, r: Request, at: nat, n: nat)
    returns (readable: seq<Piece>, writable: seq<Piece>)
    requires Servable(c, disk, mem, r) && at == r.sector * 512 && n == r.count * 512
    ensures Within(readable, |mem|) && Within(writable, |mem|)
    ensures Total(writable) == 1 + (if c.kind.In? then n else 0)
    ensures Total(readable) == 16 + (if c.kind.In? then 0 else n)
    ensures Serve(c, disk, mem, r) == ServeBy(c.kind, disk, mem, at, n, readable, writable)
    ensures var data := Cut(r.addr, n, c.sizeMax);
      if c.kind.In? then writable == data + [Piece(c.status, 1)]
      else readable == [Piece(c.hdr, 16)] + data && writable == [Piece(c.status, 1)]
  {
    var chain := RequestChain(c.kind, c.hdr, r.addr, c.status, r.count, c.sizeMax);
    ServeParts(c, disk, mem, r);
    ChainParts(c.kind, c.hdr, r.addr, c.status, r.count, c.sizeMax);
    readable, writable := Parts(chain, false), Parts(chain, true);
  }

  lemma ReadsBy(disk: seq<Octet>, mem: seq<Octet>, at: nat, n: nat, data: seq<Piece>, lo: nat, status: nat)
    requires at + n <= |disk| && lo + n <= |mem| && status < |mem| && !(lo <= status < lo + n)
    requires Tiles(data, lo, lo + n)
    ensures Within(data + [Piece(status, 1)], |mem|) && Total(data + [Piece(status, 1)]) == n + 1
    ensures Laid(mem, Scatter(mem, data + [Piece(status, 1)], disk[at..at + n] + [0]), lo, disk, at, n, status)
  {
    var bytes := disk[at..at + n] + [0];
    TilesTotal(data, lo, lo + n, |mem|);
    TotalConcat(data, [Piece(status, 1)]);
    forall a: nat | a < |mem|
      ensures Scatter(mem, data + [Piece(status, 1)], bytes)[a] ==
        if a == status then 0 else if lo <= a < lo + n then disk[at + (a - lo)] else mem[a]
    {
      ScatterAt(mem, data, lo, lo + n, Piece(status, 1), bytes, a);
    }
  }

  /** A served write leaves its part of the buffer in the sectors, a zero status, and all else alone. */
  lemma ServeWrites(c: Setting, disk: seq<Octet>, mem: seq<Octet>, r: Request) returns (disk': seq<Octet>)
    requires Servable(c, disk, mem, r) && c.kind.Out?
    ensures Serve(c, disk, mem, r) == (disk', mem[c.status := 0])
    ensures Laid(disk, disk', r.sector * 512, mem, r.addr, r.count * 512, |disk|)
  {
    var at, n, lo := r.sector * 512, r.count * 512, r.addr;
    CutTiles(lo, n, c.sizeMax);
    WritesBy(mem, n, c.hdr, Cut(lo, n, c.sizeMax), lo);
    ScatterByte(mem, c.status);
    disk' := CopyLaid(disk, at, mem, lo, n);
    var readable, writable := ServeUses(c, disk, mem, r, at, n);
  }

  lemma CopyLaid(disk: seq<Octet>, at: nat, mem: seq<Octet>, lo: nat, n: nat) returns (disk': seq<Octet>)
    requires at + n <= |disk| && lo + n <= |mem|
    ensures disk' == Copy(disk, at, mem[lo..lo + n]) && Laid(disk, disk', at, mem, lo, n, |disk|)
  {
    disk' := Copy(disk, at, mem[lo..lo + n]);
  }

  lemma WritesBy(mem: seq<Octet>, n: nat, hdr: nat, data: seq<Piece>, lo: nat)
    requires lo + n <= |mem| && hdr + 16 <= |mem| && Tiles(data, lo, lo + n)
    ensures Within([Piece(hdr, 16)] + data, |mem|) && Gather(mem, [Piece(hdr, 16)] + data)[16..] == mem[lo..lo + n]
  {
    GatherIs(mem, data, lo, lo + n);
    GatherHeader(mem, hdr, data);
  }

  lemma GatherHeader(mem: seq<Octet>, hdr: nat, data: seq<Piece>)
    requires Within(data, |mem|) && hdr + 16 <= |mem|
    ensures Within([Piece(hdr, 16)] + data, |mem|) && Gather(mem, [Piece(hdr, 16)] + data)[16..] == Gather(mem, data)
  {
    var all := [Piece(hdr, 16)] + data;
    assert all[0] == Piece(hdr, 16) && all[1..] == data;
    forall i | 0 <= i < |all| ensures all[i].start + all[i].len <= |mem| { if i > 0 { assert all[i] == data[i - 1]; } }
    DropHeader(mem[hdr..hdr + 16], Gather(mem, data));
  }

  lemma DropHeader(x: seq<Octet>, y: seq<Octet>)
    requires |x| == 16
    ensures (x + y)[16..] == y
  {
  }

  lemma ScatterByte(mem: seq<Octet>, at: nat)
    requires at < |mem|
    ensures var ps := [Piece(at, 1)]; Within(ps, |mem|) && Total(ps) == 1 && Scatter(mem, ps, [0]) == mem[at := 0]
  {
    ScatterOne(mem, Piece(at, 1), [0]);
    var byte: seq<Octet> := [0];
    assert Copy(mem, at, byte) == mem[at := 0];
  }

  /** The requests one after the other. */
  ghost function ServeAll(c: Setting, disk: seq<Octet>, mem: seq<Octet>, reqs: seq<Request>)
    : (s: Option<(seq<Octet>, seq<Octet>)>)
    decreases |reqs|
  {
    if reqs == [] then Some((disk, mem))
    else if !Servable(c, disk, mem, reqs[0]) then None
    else var s := Serve(c, disk, mem, reqs[0]); ServeAll(c, s.0, s.1, reqs[1..])
  }

  /** Sectors and buffer of a transfer, with room for them on disk and in memory. */
  ghost predicate Roomy(c: Setting, disk: seq<Octet>, mem: seq<Octet>, sector: nat, buf: nat, count: nat) {
    Servable(c, disk, mem, Request(sector, buf, count))
  }

  /** A read has put exactly the sectors into the buffer, a write exactly the buffer into the sectors. */
  ghost predicate Exact(c: Setting, disk: seq<Octet>, mem: seq<Octet>, disk': seq<Octet>, mem': seq<Octet>,
                        sector: nat, buf: nat, count: nat)
    requires Roomy(c, disk, mem, sector, buf, count)
  {
    var at, n := sector * 512, count * 512;
    if c.kind.In? then disk' == disk && Laid(mem, mem', buf, disk, at, n, c.status)
    else Laid(disk, disk', at, mem, buf, n, |disk|) && mem' == mem[c.status := 0]
  }

  /** All requests of a transfer served, the transfer is exact. */
  lemma TransferExact(c: Setting, disk: seq<Octet>, mem: seq<Octet>, sector: nat, buf: nat, count: nat, most: nat)
    requires Roomy(c, disk, mem, sector, buf, count) && most > 0 && count > 0
    ensures var s := ServeAll(c, disk, mem, Requests(sector, buf, count, most));
      s.Some? && Exact(c, disk, mem, s.value.0, s.value.1, sector, buf, count)
  {
    if c.kind.In? {
      var mem' := ReadAll(c, disk, mem, sector, buf, count, most);
    } else {
      var disk' := WriteAll(c, disk, mem, sector, buf, count, most);
    }
  }

  /** The first request served, the rest remain. */
  lemma ServeFirst(c: Setting, disk: seq<Octet>, mem: seq<Octet>, sector: nat, buf: nat, count: nat, most: nat)
    returns (r: Request, s: (seq<Octet>, seq<Octet>), sector1: nat, buf1: nat, rest: nat, reqs: seq<Request>)
    requires Roomy(c, disk, mem, sector, buf, count) && most > 0 && count > 0
    ensures rest < count && sector1 == sector + (count - rest) && buf1 == buf + (count - rest) * 512
    ensures r == Request(sector, buf, count - rest) && Servable(c, disk, mem, r) && s == Serve(c, disk, mem, r)
    ensures Roomy(c, s.0, s.1, sector1, buf1, rest) && reqs == Requests(sector1, buf1, rest, most)
    ensures ServeAll(c, disk, mem, Requests(sector, buf, count, most)) == ServeAll(c, s.0, s.1, reqs)
  {
    sector1, buf1, rest, reqs := RestOf(sector, buf, count, most);
    r := Request(sector, buf, count - rest);
    RoomFirst(c, disk, mem, sector, buf, count, r);
    s := Serve(c, disk, mem, r);
    RoomLeft(c, disk, mem, s.0, s.1, sector, buf, count, r.count);
    var all := Requests(sector, buf, count, most);
    assert all[0] == r && all[1..] == reqs;
    ServeNext(c, disk, mem, all, r, s);
  }

  /** What is left of a transfer after its first request. */
  lemma RestOf(sector: nat, buf: nat, count: nat, most: nat)
    returns (sector1: nat, buf1: nat, rest: nat, reqs: seq<Request>)
    requires count > 0 && most > 0
    ensures rest == count - Min(count, most) < count
    ensures sector1 == sector + (count - rest) && buf1 == buf + (count - rest) * 512
    ensures reqs == Requests(sector1, buf1, rest, most)
    ensures Requests(sector, buf, count, most) == [Request(sector, buf, count - rest)] + reqs
  {
    var n := Min(count, most);
    sector1, buf1, rest := sector + n, buf + n * 512, count - n;
    reqs := Requests(sector1, buf1, rest, most);
  }

  lemma ServeNext(c: Setting, disk: seq<Octet>, mem: seq<Octet>, reqs: seq<Request>, r: Request,
                  s: (seq<Octet>, seq<Octet>))
    requires Servable(c, disk, mem, r) && reqs != [] && reqs[0] == r && s == Serve(c, disk, mem, r)
    ensures ServeAll(c, disk, mem, reqs) == ServeAll(c, s.0, s.1, reqs[1..])
  {
  }

  /** The first part of a transfer can be served. */
  lemma RoomFirst(c: Setting, disk: seq<Octet>, mem: seq<Octet>, sector: nat, buf: nat, count: nat, r: Request)
    requires Roomy(c, disk, mem, sector, buf, count) && r.sector == sector && r.addr == buf && r.count <= count
    ensures Servable(c, disk, mem, r)
  {
  }

  /** The rest has room on a disk and memory of the same size. */
  lemma RoomLeft(c: Setting, disk: seq<Octet>, mem: seq<Octet>, disk': seq<Octet>, mem': seq<Octet>,
                 sector: nat, buf: nat, count: nat, n: nat)
    requires Roomy(c, disk, mem, sector, buf, count) && n <= count && |disk'| == |disk| && |mem'| == |mem|
    ensures Roomy(c, disk', mem', sector + n, buf + n * 512, count - n)
  {
  }

  lemma ReadFirst(c: Setting, disk: seq<Octet>, mem: seq<Octet>, sector: nat, buf: nat, count: nat, most: nat)
    returns (disk1: seq<Octet>, mem1: seq<Octet>, sector1: nat, buf1: nat, rest: nat, reqs: seq<Request>)
    requires Roomy(c, disk, mem, sector, buf, count) && c.kind.In? && most > 0 && count > 0
    ensures rest < count && sector1 == sector + (count - rest) && buf1 == buf + (count - rest) * 512
    ensures disk1 == disk && Roomy(c, disk1, mem1, sector1, buf1, rest) && reqs == Requests(sector1, buf1, rest, most)
    ensures ServeAll(c, disk, mem, Requests(sector, buf, count, most)) == ServeAll(c, disk1, mem1, reqs)
    ensures Laid(mem, mem1, buf, disk, sector * 512, (count - rest) * 512, c.status)
  {
    var r, s;
    r, s, sector1, buf1, rest, reqs := ServeFirst(c, disk, mem, sector, buf, count, most);
    disk1, mem1 := ReadsLaid(c, disk, mem, r, s, buf, sector * 512, (count - rest) * 512);
  }

  lemma ReadsLaid(c: Setting, disk: seq<Octet>, mem: seq<Octet>, r: Request, s: (seq<Octet>, seq<Octet>), buf: nat,
                  at: nat, n: nat)
    returns (disk1: seq<Octet>, mem1: seq<Octet>)
    requires Servable(c, disk, mem, r) && c.kind.In? && s == Serve(c, disk, mem, r)
    requires buf == r.addr && at == r.sector * 512 && n == r.count * 512
    ensures s == (disk1, mem1) && disk1 == disk && Laid(mem, mem1, buf, disk, at, n, c.status)
  {
    mem1 := ServeReads(c, disk, mem, r);
    disk1 := disk;
  }

  lemma WritesLaid(c: Setting, disk: seq<Octet>, mem: seq<Octet>, r: Request, s: (seq<Octet>, seq<Octet>), buf: nat,
                   at: nat, n: nat)
    returns (disk1: seq<Octet>, mem1: seq<Octet>)
    requires Servable(c, disk, mem, r) && c.kind.Out? && s == Serve(c, disk, mem, r)
    requires buf == r.addr && at == r.sector * 512 && n == r.count * 512
    ensures s == (disk1, mem1) && mem1 == mem[c.status := 0] && Laid(disk, disk1, at, mem, buf, n, |disk|)
  {
    disk1 := ServeWrites(c, disk, mem, r);
    mem1 := mem[c.status := 0];
  }

  lemma {:induction false} ReadAll(c: Setting, disk: seq<Octet>, mem: seq<Octet>, sector: nat, buf: nat, count: nat,
                                   most: nat)
    returns (mem': seq<Octet>)
    requires Roomy(c, disk, mem, sector, buf, count) && c.kind.In? && most > 0 && count > 0
    ensures ServeAll(c, disk, mem, Requests(sector, buf, count, most)) == Some((disk, mem'))
    ensures Laid(mem, mem', buf, disk, sector * 512, count * 512, c.status)
    decreases count
  {
    var disk1, mem1, sector1, buf1, rest, reqs := ReadFirst(c, disk, mem, sector, buf, count, most);
    mem' := mem1;
    if rest > 0 {
      mem' := ReadAll(c, disk1, mem1, sector1, buf1, rest, most);
      assert SameFrom(disk, disk1, sector1 * 512, rest * 512);
      LaidTwice(mem, mem1, mem', disk, disk1, buf, buf1, sector * 512, sector1 * 512, (count - rest) * 512, rest * 512,
                count * 512, c.status);
    }
  }

  lemma WriteFirst(c: Setting, disk: seq<Octet>, mem: seq<Octet>, sector: nat, buf: nat, count: nat, most: nat)
    returns (disk1: seq<Octet>, mem1: seq<Octet>, sector1: nat, buf1: nat, rest: nat, reqs: seq<Request>)
    requires Roomy(c, disk, mem, sector, buf, count) && c.kind.Out? && most > 0 && count > 0
    ensures rest < count && sector1 == sector + (count - rest) && buf1 == buf + (count - rest) * 512
    ensures mem1 == mem[c.status := 0] && Roomy(c, disk1, mem1, sector1, buf1, rest)
    ensures reqs == Requests(sector1, buf1, rest, most)
    ensures ServeAll(c, disk, mem, Requests(sector, buf, count, most)) == ServeAll(c, disk1, mem1, reqs)
    ensures Laid(disk, disk1, sector * 512, mem, buf, (count - rest) * 512, |disk|)
  {
    var r, s;
    r, s, sector1, buf1, rest, reqs := ServeFirst(c, disk, mem, sector, buf, count, most);
    disk1, mem1 := WritesLaid(c, disk, mem, r, s, buf, sector * 512, (count - rest) * 512);
  }

  lemma {:induction false} WriteAll(c: Setting, disk: seq<Octet>, mem: seq<Octet>, sector: nat, buf: nat, count: nat,
                                    most: nat)
    returns (disk': seq<Octet>)
    requires Roomy(c, disk, mem, sector, buf, count) && c.kind.Out? && most > 0 && count > 0
    ensures ServeAll(c, disk, mem, Requests(sector, buf, count, most)) == Some((disk', mem[c.status := 0]))
    ensures Laid(disk, disk', sector * 512, mem, buf, count * 512, |disk|)
    decreases count
  {
    var disk1, mem1, sector1, buf1, rest, reqs := WriteFirst(c, disk, mem, sector, buf, count, most);
    disk' := disk1;
    if rest > 0 {
      disk' := WriteAll(c, disk1, mem1, sector1, buf1, rest, most);
      StatusApart(mem, mem1, c.status, buf1, rest * 512);
      LaidTwice(disk, disk1, disk', mem, mem1, sector * 512, sector1 * 512, buf, buf1, (count - rest) * 512, rest * 512,
                count * 512, |disk|);
    }
  }

  lemma StatusApart(mem: seq<Octet>, mem1: seq<Octet>, status: nat, lo: nat, n: nat)
    requires status < |mem| && mem1 == mem[status := 0] && !(lo <= status < lo + n)
    ensures mem1[status := 0] == mem1 && SameFrom(mem, mem1, lo, n)
  {
  }

  ghost predicate SameFrom(x: seq<Octet>, y: seq<Octet>, lo: nat, n: nat) {
    |x| == |y| && forall b: nat :: lo <= b < lo + n && b < |x| ==> x[b] == y[b]
  }

  /** Two runs laid next to each other; the second source agrees with the first where it is used. */
  lemma LaidTwice(was: seq<Octet>, now1: seq<Octet>, now2: seq<Octet>, src: seq<Octet>, src1: seq<Octet>,
                  lo: nat, lo1: nat, from: nat, from1: nat, n: nat, rest: nat, all: nat, status: nat)
    requires lo1 == lo + n && from1 == from + n && all == n + rest && SameFrom(src, src1, from1, rest)
    requires Laid(was, now1, lo, src, from, n, status) && Laid(now1, now2, lo1, src1, from1, rest, status)
    ensures Laid(was, now2, lo, src, from, all, status)
  {
    forall a: nat | a < |was|
      ensures now2[a] == if a == status then 0 else if lo <= a < lo + all then src[from + (a - lo)] else was[a]
    {
      assert now1[a] == if a == status then 0 else if lo <= a < lo + n then src[from + (a - lo)] else was[a];
    }
  }

  /** The requests tile the sectors and, 512 bytes a sector, the buffer; each is at most the maximum. */
  lemma {:induction false} RequestsTile(sector: nat, buf: nat, count: nat, most: nat)
    requires most > 0
    ensures var r := Requests(sector, buf, count, most);
      && Tiles(Sectors(r), sector, sector + count) && Tiles(Addresses(r), buf, buf + count * 512)
      && forall i :: 0 <= i < |r| ==> 0 < r[i].count <= most
    decreases count
  {
    if count > 0 {
      var n := Min(count, most);
      var r, rest := Requests(sector, buf, count, most), Requests(sector + n, buf + n * 512, count - n, most);
      RequestsTile(sector + n, buf + n * 512, count - n, most);
      assert r[1..] == rest && Sectors(r)[1..] == Sectors(rest) && Addresses(r)[1..] == Addresses(rest);
      forall i | 0 <= i < |r| ensures 0 < r[i].count <= most { if i > 0 { assert r[i] == rest[i - 1]; } }
    }
  }

  function Sectors(r: seq<Request>): (p: seq<Piece>) {
    if r == [] then [] else [Piece(r[0].sector, r[0].count)] + Sectors(r[1..])
  }

  function Addresses(r: seq<Request>): (p: seq<Piece>) {
    if r == [] then [] else [Piece(r[0].addr, r[0].count * 512)] + Addresses(r[1..])
  }

  // ---------------------------------------------------------------------
  // The transfer loop
  // ---------------------------------------------------------------------

  datatype Rc = Success | TimedOut | IoError | OutOfRange | NoSpace | NoDevice | Invalid

  /**
   blk_rw with the buffer at physical address buf. `answers` are what the requests come
   back with, in order, and `issued` are the requests made. A transfer that succeeds has
   issued requests which, once served, make it exact.
   */
  method Rw(l: Limits, ready: bool, sector: nat, buf: nat, count: nat, capacity: nat, answers: seq<Rc>,
            ghost c: Setting)
    returns (rc: Rc, issued: seq<Request>)
    requires Clamped(l) && c.sizeMax == l.sizeMax
    requires |answers| >= |Requests(sector, buf, count, MaxSectors(l))|
    ensures !ready ==> rc == NoDevice && issued == []
    ensures ready && count == 0 ==> rc == Invalid && issued == []
    ensures ready && count > 0 && sector + count > capacity ==> rc == OutOfRange && issued == []
    ensures issued != [] ==> ready && sector + count <= capacity
    ensures var reqs := Requests(sector, buf, count, MaxSectors(l));
      ready && 0 < count && sector + count <= capacity ==>
        && issued <= reqs && issued != [] && rc == answers[|issued| - 1]
        && (forall k :: 0 <= k < |issued| - 1 ==> answers[k] == Success)
        && (rc == Success ==> issued == reqs)
    ensures issued != [] ==> (Min(count, MaxSectors(l)) * 512 < 0x1_0000_0000 <==>
      forall i :: 0 <= i < |issued| ==> issued[i].count * 512 < 0x1_0000_0000)
    ensures issued != [] && rc == Success ==> forall disk, mem | Roomy(c, disk, mem, sector, buf, count) ::
      var s := ServeAll(c, disk, mem, issued); s.Some? && Exact(c, disk, mem, s.value.0, s.value.1, sector, buf, count)
  {
    issued := [];
    if !ready {
      return NoDevice, [];
    }
    if count == 0 {
      return Invalid, [];
    }
    if sector >= capacity || count > capacity - sector {
      return OutOfRange, [];
    }
    rc, issued := Issue(MaxSectors(l), sector, buf, count, answers);
    RequestsTile(sector, buf, count, MaxSectors(l));
    FirstRequest(sector, buf, count, MaxSectors(l));
    assert issued[0].count == Min(count, MaxSectors(l));
    if rc == Success {
      forall disk, mem | Roomy(c, disk, mem, sector, buf, count)
        ensures var s := ServeAll(c, disk, mem, issued);
          s.Some? && Exact(c, disk, mem, s.value.0, s.value.1, sector, buf, count)
      {
        TransferExact(c, disk, mem, sector, buf, count, MaxSectors(l));
      }
    }
  }

  /** The loop over the requests of a transfer that passed the checks. */
  method Issue(most: nat, sector: nat, buf: nat, count: nat, answers: seq<Rc>) returns (rc: Rc, issued: seq<Request>)
    requires most > 0 && count > 0 && |answers| >= |Requests(sector, buf, count, most)|
    ensures issued <= Requests(sector, buf, count, most) && issued != [] && rc == answers[|issued| - 1]
    ensures forall k :: 0 <= k < |issued| - 1 ==> answers[k] == Success
    ensures rc == Success ==> issued == Requests(sector, buf, count, most)
  {
    var done := 0;
    issued, rc := [], Success;
    ghost var reqs := Requests(sector, buf, count, most);
    ghost var rest, at, addr, left: nat := reqs, sector, buf, count;
    while done < count
      invariant at == sector + done && addr == buf + done * 512 && left == count - done
      invariant rest == Requests(at, addr, left, most) && issued + rest == reqs
      invariant forall k :: 0 <= k < |issued| ==> answers[k] == Success
      invariant rc == Success && (done > 0 <==> issued != [])
      decreases count - done
    {
      var chunk := count - done;
      if chunk > most {
        chunk := most;
      }
      ghost var next := NextRequest(issued, rest, at, addr, left, most, chunk);
      issued, rest := issued + [Request(sector + done, buf + done * 512, chunk)], next;
      at, addr, left := at + chunk, addr + chunk * 512, left - chunk;
      rc := answers[|issued| - 1];
      if rc != Success {
        return;
      }
      done := done + chunk;
    }
  }

  /** The next request issued, the rest remain. */
  lemma NextRequest(issued: seq<Request>, rest: seq<Request>, at: nat, addr: nat, left: nat, most: nat, n: nat)
    returns (next: seq<Request>)
    requires most > 0 && left > 0 && n == Min(left, most) && rest == Requests(at, addr, left, most)
    ensures next == Requests(at + n, addr + n * 512, left - n, most)
    ensures issued + rest == (issued + [Request(at, addr, n)]) + next
  {
    FirstRequest(at, addr, left, most);
    next := rest[1..];
    assert rest == [rest[0]] + next;
  }

  lemma FirstRequest(sector: nat, buf: nat, count: nat, most: nat)
    requires most > 0 && count > 0
    ensures var r, n := Requests(sector, buf, count, most), Min(count, most);
      r != [] && r[0] == Request(sector, buf, n) && r[1..] == Requests(sector + n, buf + n * 512, count - n, most)
  {
  }
}
