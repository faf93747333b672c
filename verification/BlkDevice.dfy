/**
 The device's side of a block request. All it has is the chain: the header it reads
 there says what to move and where, the parts behind it how much.
 */
module BlkDevice {
  import opened Common
  import opened Words
  import opened Virtqueue
  import opened Blk

  /** VIRTIO_BLK_T_IN, _OUT and _FLUSH. */
  function Code(kind: Kind): (n: nat) {
    match kind
    case In => 0
    case Out => 1
    case Flush => 4
  }

  /** Type, a reserved word, sector. */
  function Header(kind: Kind, sector: nat): (h: seq<Octet>)
    ensures |h| == 16
  {
    Bytes(Code(kind), 4) + Bytes(0, 4) + Bytes(sector, 8)
  }

  lemma HeaderFields(kind: Kind, sector: nat)
    requires sector < 0x1_0000_0000_0000_0000
    ensures Number(Header(kind, sector)[..4]) == Code(kind) && Number(Header(kind, sector)[8..]) == sector
  {
    var h := Header(kind, sector);
    Words.Limits();
    assert h[..4] == Bytes(Code(kind), 4) && h[8..] == Bytes(sector, 8);
    NumberBytes(Code(kind), 4);
    NumberBytes(sector, 8);
  }

  /** What the device does with a chain, if the chain makes sense to it. */
  ghost function Obey(chain: seq<Seg>, disk: seq<Octet>, mem: seq<Octet>): (s: Option<(seq<Octet>, seq<Octet>)>) {
    var readable, writable := Parts(chain, false), Parts(chain, true);
    if !Within(readable, |mem|) || !Within(writable, |mem|) || Total(readable) < 16 || Total(writable) < 1 then None
    else
      var h := Gather(mem, readable)[..16];
      Move(Number(h[..4]), Number(h[8..]), disk, mem, readable, writable)
  }

  ghost function Move(code: nat, sector: nat, disk: seq<Octet>, mem: seq<Octet>, readable: seq<Piece>,
                      writable: seq<Piece>)
    : (s: Option<(seq<Octet>, seq<Octet>)>)
    requires Within(readable, |mem|) && Within(writable, |mem|) && Total(readable) >= 16 && Total(writable) >= 1
  {
    var at, read, write := sector * 512, Total(writable) - 1, Total(readable) - 16;
    if code == 0 && write == 0 && at + read <= |disk| then Some(ServeBy(In, disk, mem, at, read, readable, writable))
    else if code == 1 && read == 0 && at + write <= |disk| then
      Some(ServeBy(Out, disk, mem, at, write, readable, writable))
    else None
  }

  /** The header lies apart from the status byte and from so many bytes of data. */
  ghost predicate Clear(c: Setting, addr: nat, n: nat) {
    !(c.hdr <= c.status < c.hdr + 16) && (c.hdr + 16 <= addr || addr + n <= c.hdr)
  }

  /** Memory once the driver has filled in the header. */
  ghost function Headed(c: Setting, mem: seq<Octet>, sector: nat): (mem': seq<Octet>)
    requires c.hdr + 16 <= |mem|
    ensures |mem'| == |mem|
  {
    Copy(mem, c.hdr, Header(c.kind, sector))
  }

  /** Told by the header, the device serves exactly the request the driver meant. */
  lemma Obeys(c: Setting, disk: seq<Octet>, mem: seq<Octet>, r: Request)
    requires Servable(c, disk, mem, r) && r.sector < 0x1_0000_0000_0000_0000
    ensures var chain := RequestChain(c.kind, c.hdr, r.addr, c.status, r.count, c.sizeMax);
      var mem1 := Headed(c, mem, r.sector);
      Servable(c, disk, mem1, r) && Obey(chain, disk, mem1) == Some(Serve(c, disk, mem1, r))
  {
    var mem1 := Headed(c, mem, r.sector);
    var chain := RequestChain(c.kind, c.hdr, r.addr, c.status, r.count, c.sizeMax);
    ServeParts(c, disk, mem1, r);
    HeaderFirst(c, mem1, r, Header(c.kind, r.sector));
    HeaderFields(c.kind, r.sector);
    MovesAsMeant(c, disk, mem1, r, Parts(chain, false), Parts(chain, true));
  }

  lemma HeaderFirst(c: Setting, mem: seq<Octet>, r: Request, h: seq<Octet>)
    requires c.sizeMax > 0 && !c.kind.Flush? && c.hdr + 16 <= |mem| && mem[c.hdr..c.hdr + 16] == h
    requires Within(Parts(RequestChain(c.kind, c.hdr, r.addr, c.status, r.count, c.sizeMax), false), |mem|)
    ensures var readable := Parts(RequestChain(c.kind, c.hdr, r.addr, c.status, r.count, c.sizeMax), false);
      |Gather(mem, readable)| >= 16 && Gather(mem, readable)[..16] == h
  {
    ChainParts(c.kind, c.hdr, r.addr, c.status, r.count, c.sizeMax);
    var readable := Parts(RequestChain(c.kind, c.hdr, r.addr, c.status, r.count, c.sizeMax), false);
    assert readable[0] == Piece(c.hdr, 16);
  }

  lemma MovesAsMeant(c: Setting, disk: seq<Octet>, mem: seq<Octet>, r: Request, readable: seq<Piece>,
                     writable: seq<Piece>)
    requires !c.kind.Flush? && (r.sector + r.count) * 512 <= |disk|
    requires Within(readable, |mem|) && Within(writable, |mem|)
    requires Total(writable) == 1 + (if c.kind.In? then r.count * 512 else 0)
    requires Total(readable) == 16 + (if c.kind.In? then 0 else r.count * 512)
    ensures Move(Code(c.kind), r.sector, disk, mem, readable, writable)
      == Some(ServeBy(c.kind, disk, mem, r.sector * 512, r.count * 512, readable, writable))
  {
  }

  /** The chain the driver builds, its byte count in 32 bits. */
  function Built(c: Setting, r: Request): (chain: seq<Seg>)
    requires c.sizeMax > 0
  {
    ChainOf(c.kind, c.hdr, r.addr, c.status, r.count * 512 % 0x1_0000_0000, c.sizeMax)
  }

  /** Two memories that differ at most in the header. */
  ghost predicate Alike(c: Setting, mem: seq<Octet>, mem': seq<Octet>) {
    |mem'| == |mem| && forall a: nat :: a < |mem| && !(c.hdr <= a < c.hdr + 16) ==> mem'[a] == mem[a]
  }

  lemma BuiltIs(c: Setting, r: Request)
    requires c.sizeMax > 0 && r.count * 512 < 0x1_0000_0000
    ensures Built(c, r) == RequestChain(c.kind, c.hdr, r.addr, c.status, r.count, c.sizeMax)
  {
  }

  lemma ClearLeft(c: Setting, buf: nat, count: nat, n: nat)
    requires Clear(c, buf, count * 512) && n <= count
    ensures Clear(c, buf, n * 512) && Clear(c, buf + n * 512, (count - n) * 512)
  {
  }

  // ---------------------------------------------------------------------
  // What a request may touch
  // ---------------------------------------------------------------------

  /**
   Disk and memory differ at most where a request for the n bytes at `at` works: a read
   in the buffer, a write in the sectors, either in the driver's header and status byte.
   */
  ghost predicate Near(c: Setting, at: nat, addr: nat, n: nat, disk: seq<Octet>, mem: seq<Octet>, disk': seq<Octet>,
                       mem': seq<Octet>) {
    && |disk'| == |disk| && |mem'| == |mem|
    && (forall a: nat :: a < |disk| && (c.kind.In? || !(at <= a < at + n)) ==> disk'[a] == disk[a])
    && (forall a: nat :: a < |mem| && Spared(c, addr, n, a) ==> mem'[a] == mem[a])
  }

  ghost predicate Spared(c: Setting, addr: nat, n: nat, a: nat) {
    !(c.hdr <= a < c.hdr + 16) && a != c.status && (c.kind.In? ==> !(addr <= a < addr + n))
  }

  lemma NearTwice(c: Setting, at: nat, addr: nat, n: nat, disk: seq<Octet>, mem: seq<Octet>, disk1: seq<Octet>,
                  mem1: seq<Octet>, disk2: seq<Octet>, mem2: seq<Octet>)
    requires Near(c, at, addr, n, disk, mem, disk1, mem1) && Near(c, at, addr, n, disk1, mem1, disk2, mem2)
    ensures Near(c, at, addr, n, disk, mem, disk2, mem2)
  {
  }

  /** What such a request may touch, one for more may touch. */
  lemma NearWider(c: Setting, at: nat, addr: nat, n: nat, at': nat, addr': nat, n': nat, disk: seq<Octet>,
                  mem: seq<Octet>, disk': seq<Octet>, mem': seq<Octet>)
    requires Near(c, at, addr, n, disk, mem, disk', mem')
    requires at' <= at && at + n <= at' + n' && addr' <= addr && addr + n <= addr' + n'
    ensures Near(c, at', addr', n', disk, mem, disk', mem')
  {
  }

  /** Serving a request leaves the same, whatever was in the places it works on. */
  lemma NearServes(c: Setting, r: Request, disk: seq<Octet>, mem: seq<Octet>, disk1: seq<Octet>, mem1: seq<Octet>,
                   at: nat, n: nat)
    returns (s: (seq<Octet>, seq<Octet>), s1: (seq<Octet>, seq<Octet>))
    requires Servable(c, disk, mem, r) && Clear(c, r.addr, n) && at == r.sector * 512 && n == r.count * 512
    requires Near(c, at, r.addr, n, disk, mem, disk1, mem1)
    ensures Servable(c, disk1, mem1, r) && s == Serve(c, disk, mem, r) && s1 == Serve(c, disk1, mem1, r)
    ensures s1.0 == s.0 && Alike(c, s.1, s1.1) && s1.1[c.status] == 0
    ensures Near(c, at, r.addr, n, disk, mem, s1.0, s1.1)
  {
    if c.kind.In? {
      var x := ServeReads(c, disk, mem, r);
      var y := ServeReads(c, disk1, mem1, r);
      assert disk1 == disk;
      s, s1 := (disk, x), (disk1, y);
      ReadsNear(c, r.addr, disk, at, n, mem, mem1, x, y);
    } else {
      var x := ServeWrites(c, disk, mem, r);
      var y := ServeWrites(c, disk1, mem1, r);
      s, s1 := (x, mem[c.status := 0]), (y, mem1[c.status := 0]);
      WritesNear(c, r.addr, at, n, disk, disk1, mem, mem1, x, y);
    }
  }

  lemma ReadsNear(c: Setting, addr: nat, disk: seq<Octet>, at: nat, n: nat, mem: seq<Octet>, mem1: seq<Octet>,
                  x: seq<Octet>, y: seq<Octet>)
    requires c.kind.In? && Near(c, at, addr, n, disk, mem, disk, mem1) && c.status < |mem|
    requires Laid(mem, x, addr, disk, at, n, c.status) && Laid(mem1, y, addr, disk, at, n, c.status)
    ensures Alike(c, x, y) && y[c.status] == 0 && Near(c, at, addr, n, disk, mem, disk, y)
  {
  }

  lemma WritesNear(c: Setting, addr: nat, at: nat, n: nat, disk: seq<Octet>, disk1: seq<Octet>, mem: seq<Octet>,
                   mem1: seq<Octet>, x: seq<Octet>, y: seq<Octet>)
    requires !c.kind.In? && Near(c, at, addr, n, disk, mem, disk1, mem1) && c.status < |mem| && Clear(c, addr, n)
    requires !(addr <= c.status < addr + n)
    requires Laid(disk, x, at, mem, addr, n, |disk|) && Laid(disk1, y, at, mem1, addr, n, |disk1|)
    ensures y == x && Alike(c, mem[c.status := 0], mem1[c.status := 0])
    ensures Near(c, at, addr, n, disk, mem, y, mem1[c.status := 0])
  {
    forall a: nat | a < |disk| ensures y[a] == x[a] {
      if at <= a < at + n { assert mem1[addr + (a - at)] == mem[addr + (a - at)]; }
    }
  }
}
