/**
 Frames on the UART: START, then type, sequence number, length, payload and CRC
 with every 0xAA among them escaped as 0xAA 0x00.
 */
module Framing {
  import opened Common
  import Crc16

  /** A byte of the stream. */
  const START: Octet := 0xAA
  const MAX_PAYLOAD: nat := 256
  const MAX_ENCODED: nat := 525
  /** Unstuffed bytes of the longest frame, the size of the decoder's linear buffer. */
  const MAX_LINEAR: nat := 262

  datatype Frame = Frame(kind: Octet, sq: Octet, payload: seq<Octet>)

  ghost predicate Sendable(f: Frame) {
    |f.payload| <= MAX_PAYLOAD
  }

  // ---------------------------------------------------------------------
  // The checksum bytes
  // ---------------------------------------------------------------------

  /** The byte of value n. */
  function ToBits(n: Octet): (b: Crc16.Byte)
    ensures b as int == n
  {
    if n == 0 then 0 else
      NextByte(ToBits(n - 1));
      ToBits(n - 1) + 1
  }

  lemma NextByte(b: Crc16.Byte)
    requires b as int < 255
    ensures (b + 1) as int == b as int + 1
  {
  }

  lemma SameByte(a: Crc16.Byte, b: Crc16.Byte)
    requires a as int == b as int
    ensures a == b
  {
  }

  function FromBits(b: Crc16.Byte): (n: Octet) { b as int }

  function Bits(s: seq<Octet>): (r: seq<Crc16.Byte>)
    ensures |r| == |s| && forall i :: 0 <= i < |s| ==> r[i] == ToBits(s[i])
  {
    seq(|s|, i requires 0 <= i < |s| => ToBits(s[i]))
  }

  /** The checksum of `s`, high byte first. */
  function Check(s: seq<Octet>): (r: seq<Octet>)
    ensures |r| == 2
  {
    var crc := Crc16.Crc(Crc16.INIT, Bits(s));
    [FromBits(Crc16.High(crc)), FromBits(Crc16.Low(crc))]
  }

  // ---------------------------------------------------------------------
  // Encoding
  // ---------------------------------------------------------------------

  function Length(hi: nat, lo: nat): (n: nat) {
    256 * hi + lo
  }

  /** The bytes under the checksum. */
  function Body(f: Frame): (s: seq<Octet>)
    requires |f.payload| < 0x1_0000
  {
    [f.kind, f.sq, |f.payload| / 256, |f.payload| % 256] + f.payload
  }

  /** Body and checksum, before stuffing. */
  function Wire(f: Frame): (s: seq<Octet>)
    requires |f.payload| < 0x1_0000
  {
    Body(f) + Check(Body(f))
  }

  function Stuff1(b: Octet): (s: seq<Octet>) {
    if b == START then [START, 0] else [b]
  }

  function Stuff(s: seq<Octet>): (r: seq<Octet>) {
    if s == [] then [] else Stuff1(s[0]) + Stuff(s[1..])
  }

  function Encode(f: Frame): (r: seq<Octet>)
    requires |f.payload| < 0x1_0000
  {
    [START] + Stuff(Wire(f))
  }

  // ---------------------------------------------------------------------
  // Decoding a whole buffer
  // ---------------------------------------------------------------------

  /** Undo the stuffing until the input ends or `cap` bytes have come out; None on a bare START. */
  function Unstuff(buf: seq<Octet>, cap: nat): (r: Option<seq<Octet>>)
    decreases |buf|
  {
    if buf == [] || cap == 0 then Some([])
    else if buf[0] != START then Prepend(buf[0], Unstuff(buf[1..], cap - 1))
    else if |buf| == 1 || buf[1] != 0 then None
    else Prepend(START, Unstuff(buf[2..], cap - 1))
  }

  function Prepend(b: Octet, r: Option<seq<Octet>>): (r': Option<seq<Octet>>) {
    if r.None? then None else Some([b] + r.value)
  }

  datatype Decoded = Ok(frame: Frame) | CrcError(frame: Frame) | BadLength

  /** Split linear bytes into fields and check them. */
  function Parse(lin: seq<Octet>): (r: Decoded) {
    if |lin| < 6 then BadLength else
      var n := Length(lin[2], lin[3]);
      if n > MAX_PAYLOAD || |lin| != n + 6 then BadLength else
        var f := Frame(lin[0], lin[1], lin[4..4 + n]);
        if Check(lin[..4 + n]) == lin[4 + n..] then Ok(f) else CrcError(f)
  }

  function Decode(buf: seq<Octet>): (r: Decoded) {
    if buf == [] || buf[0] != START then BadLength else
      match Unstuff(buf[1..], MAX_LINEAR)
      case None => BadLength
      case Some(lin) => Parse(lin)
  }

  // ---------------------------------------------------------------------
  // Stuffing is invertible, both ways
  // ---------------------------------------------------------------------

  lemma {:induction false} StuffConcat(s: seq<Octet>, t: seq<Octet>)
    ensures Stuff(s + t) == Stuff(s) + Stuff(t)
  {
    if s == [] {
      assert s + t == t;
    } else {
      var rest := s[1..];
      StuffConcat(rest, t);
      assert s == [s[0]] + rest && s + t == [s[0]] + (rest + t);
      StuffCons(s[0], rest);
      StuffCons(s[0], rest + t);
      Assoc(Stuff1(s[0]), Stuff(rest), Stuff(t));
    }
  }

  lemma Assoc(x: seq<Octet>, y: seq<Octet>, z: seq<Octet>)
    ensures (x + y) + z == x + (y + z)
  {
  }

  lemma StuffCons(b: Octet, t: seq<Octet>)
    ensures Stuff([b] + t) == Stuff1(b) + Stuff(t)
  {
    assert ([b] + t)[1..] == t;
  }

  lemma {:induction false} StuffLength(s: seq<Octet>)
    ensures |s| <= |Stuff(s)| <= 2 * |s|
  {
    if s != [] { StuffLength(s[1..]); }
  }

  lemma {:induction false} UnstuffStuff(s: seq<Octet>, rest: seq<Octet>, cap: nat)
    requires |s| == cap || (|s| < cap && rest == [])
    ensures Unstuff(Stuff(s) + rest, cap) == Some(s)
  {
    if s != [] {
      UnstuffStuff(s[1..], rest, cap - 1);
      var t := Stuff(s[1..]) + rest;
      assert Stuff(s) + rest == Stuff1(s[0]) + t;
      UnstuffStep(s[0], t, cap);
      assert s == [s[0]] + s[1..];
    }
  }

  lemma UnstuffStep(b: Octet, t: seq<Octet>, cap: nat)
    requires cap > 0
    ensures Unstuff(Stuff1(b) + t, cap) == Prepend(b, Unstuff(t, cap - 1))
  {
    var buf := Stuff1(b) + t;
    if b == START { assert buf[2..] == t; } else { assert buf[1..] == t; }
  }

  /** Whatever unstuffs came from stuffing, and all of it did unless the cap was hit. */
  lemma {:induction false} StuffUnstuff(buf: seq<Octet>, cap: nat)
    requires Unstuff(buf, cap).Some?
    ensures var s := Unstuff(buf, cap).value;
      |s| <= cap && Stuff(s) <= buf && (|s| < cap ==> buf == Stuff(s))
    decreases |buf|
  {
    if buf != [] && cap > 0 {
      var k := if buf[0] == START then 2 else 1;
      StuffUnstuff(buf[k..], cap - 1);
      var t := Unstuff(buf[k..], cap - 1).value;
      assert Unstuff(buf, cap).value == [buf[0]] + t;
      assert ([buf[0]] + t)[1..] == t;
      assert buf == Stuff1(buf[0]) + buf[k..];
    }
  }

  // ---------------------------------------------------------------------
  // Encode and Decode
  // ---------------------------------------------------------------------

  /** Linear bytes parse as a frame exactly when they are that frame's wire form. */
  lemma ParsesAsIff(lin: seq<Octet>, f: Frame)
    ensures Parse(lin) == Ok(f) <==> Sendable(f) && lin == Wire(f)
  {
    if Parse(lin) == Ok(f) { ParsedIsWire(lin, f); }
    if Sendable(f) && lin == Wire(f) { WireParses(f); }
  }

  lemma ParsedIsWire(lin: seq<Octet>, f: Frame)
    requires Parse(lin) == Ok(f)
    ensures Sendable(f) && lin == Wire(f)
  {
    var n := Length(lin[2], lin[3]);
    LengthBytes(lin[2], lin[3]);
    assert lin[..4 + n] == [lin[0], lin[1], lin[2], lin[3]] + lin[4..4 + n];
    assert lin == lin[..4 + n] + lin[4 + n..];
  }

  lemma LengthBytes(hi: Octet, lo: Octet)
    ensures Length(hi, lo) / 256 == hi && Length(hi, lo) % 256 == lo
  {
  }

  lemma WireParses(f: Frame)
    requires Sendable(f)
    ensures Parse(Wire(f)) == Ok(f)
  {
    var lin, n := Wire(f), |f.payload|;
    assert lin[2] == n / 256 && lin[3] == n % 256;
    assert lin[..4 + n] == Body(f) && lin[4 + n..] == Check(Body(f)) && lin[4..4 + n] == f.payload;
  }

  /**
   Decoding succeeds exactly on encodings. The one exception is a frame with a full
   payload: it fills the linear buffer, and whatever follows it goes unread.
   */
  lemma DecodesIff(buf: seq<Octet>, f: Frame)
    ensures Decode(buf) == Ok(f) <==>
      Sendable(f) && (buf == Encode(f) || (|f.payload| == MAX_PAYLOAD && Encode(f) <= buf))
  {
    if Decode(buf) == Ok(f) { DecodedIsEncoding(buf, f); }
    if Sendable(f) && buf == Encode(f) {
      EncodingDecodes(f, []);
      assert Encode(f) + [] == buf;
    } else if Sendable(f) && |f.payload| == MAX_PAYLOAD && Encode(f) <= buf {
      EncodingDecodes(f, buf[|Encode(f)|..]);
      assert Encode(f) + buf[|Encode(f)|..] == buf;
    }
  }

  /** It does happen: 256 zeros encoded, and one more byte. */
  lemma TrailingDecodes(kind: Octet, sq: Octet, more: Octet)
    ensures var f := Frame(kind, sq, seq(MAX_PAYLOAD, _ => 0));
      Sendable(f) && Decode(Encode(f) + [more]) == Ok(f) && Encode(f) + [more] != Encode(f)
  {
    var f := Frame(kind, sq, seq(MAX_PAYLOAD, _ => 0));
    DecodesIff(Encode(f) + [more], f);
  }

  lemma DecodedIsEncoding(buf: seq<Octet>, f: Frame)
    requires Decode(buf) == Ok(f)
    ensures Sendable(f) && (buf == Encode(f) || (|f.payload| == MAX_PAYLOAD && Encode(f) <= buf))
  {
    var lin := Unstuff(buf[1..], MAX_LINEAR).value;
    ParsesAsIff(lin, f);
    StuffUnstuff(buf[1..], MAX_LINEAR);
    assert buf == [START] + buf[1..];
  }

  lemma EncodingDecodes(f: Frame, rest: seq<Octet>)
    requires Sendable(f) && (rest == [] || |f.payload| == MAX_PAYLOAD)
    ensures Decode(Encode(f) + rest) == Ok(f)
  {
    var buf := Encode(f) + rest;
    assert buf[0] == START && buf[1..] == Stuff(Wire(f)) + rest;
    UnstuffStuff(Wire(f), rest, MAX_LINEAR);
    ParsesAsIff(Wire(f), f);
  }

  // ---------------------------------------------------------------------
  // The bytes on the wire, and damaged ones
  // ---------------------------------------------------------------------

  /** Type, sequence number, length, payload and checksum, the last over all before it from 0xFFFF. */
  lemma WireIs(f: Frame)
    requires Sendable(f)
    ensures var w, n := Wire(f), |f.payload|;
      && |w| == n + 6 && w[0] == f.kind && w[1] == f.sq && Length(w[2], w[3]) == n && w[4..4 + n] == f.payload
      && Crc16.Join(ToBits(w[4 + n]), ToBits(w[5 + n])) == Crc16.Crc(0xFFFF, Bits(w[..4 + n]))
  {
    var w, n := Wire(f), |f.payload|;
    var crc := Crc16.Crc(Crc16.INIT, Bits(Body(f)));
    assert w[..4 + n] == Body(f);
    assert w[4 + n] == FromBits(Crc16.High(crc)) && w[5 + n] == FromBits(Crc16.Low(crc));
    BitsOf(Crc16.High(crc));
    BitsOf(Crc16.Low(crc));
    Crc16.JoinParts(crc);
  }

  /** A frame begins with 0xAA, and every other 0xAA in it is followed by zero. */
  lemma StartsAlone(f: Frame, i: nat)
    requires Sendable(f) && i < |Encode(f)|
    ensures Encode(f)[0] == 0xAA
    ensures 0 < i && Encode(f)[i] == 0xAA ==> i + 1 < |Encode(f)| && Encode(f)[i + 1] == 0
  {
    if i > 0 {
      EscapedAt(Wire(f), i - 1);
    }
  }

  lemma {:induction false} EscapedAt(s: seq<Octet>, i: nat)
    requires i < |Stuff(s)|
    ensures Stuff(s)[i] == 0xAA ==> i + 1 < |Stuff(s)| && Stuff(s)[i + 1] == 0
  {
    var k := |Stuff1(s[0])|;
    if i >= k {
      EscapedAt(s[1..], i - k);
    }
  }

  /** A frame that arrived with `check` where its checksum belongs. */
  ghost predicate Damaged(lin: seq<Octet>, f: Frame, check: seq<Octet>) {
    Sendable(f) && |check| == 2 && check != Check(Body(f)) && lin == Body(f) + check
  }

  /** Exactly a whole frame with the wrong two bytes at its end is a checksum error. */
  lemma DamagedIff(lin: seq<Octet>, f: Frame)
    ensures Parse(lin) == CrcError(f) <==> exists check :: Damaged(lin, f, check)
  {
    if Parse(lin) == CrcError(f) {
      var n := Length(lin[2], lin[3]);
      LengthBytes(lin[2], lin[3]);
      assert lin[..4 + n] == [lin[0], lin[1], lin[2], lin[3]] + lin[4..4 + n];
      assert lin == lin[..4 + n] + lin[4 + n..];
      assert Damaged(lin, f, lin[4 + n..]);
    }
    if exists check :: Damaged(lin, f, check) {
      var check :| Damaged(lin, f, check);
      DamagedParses(lin, f, check);
    }
  }

  lemma DamagedParses(lin: seq<Octet>, f: Frame, check: seq<Octet>)
    requires Damaged(lin, f, check)
    ensures Parse(lin) == CrcError(f)
  {
    var n := |f.payload|;
    assert lin[2] == n / 256 && lin[3] == n % 256;
    assert lin[..4 + n] == Body(f) && lin[4 + n..] == check && lin[4..4 + n] == f.payload;
  }

  /** The decoder reports the error with the frame it read. */
  lemma DamagedDecodes(lin: seq<Octet>, f: Frame, check: seq<Octet>)
    requires Damaged(lin, f, check)
    ensures Decode([START] + Stuff(lin)) == CrcError(f)
  {
    var buf := [START] + Stuff(lin);
    assert buf[1..] == Stuff(lin) + [];
    UnstuffStuff(lin, [], MAX_LINEAR);
    DamagedParses(lin, f, check);
  }

  /** An encoding is never longer than the buffer its caller provides. */
  lemma EncodedFits(f: Frame)
    requires Sendable(f)
    ensures |Encode(f)| <= MAX_ENCODED
  {
    StuffLength(Wire(f));
  }

  /** Damage confined to two consecutive unstuffed bytes is never accepted. */
  lemma BurstRejected(f: Frame, lin: seq<Octet>, i: nat)
    requires Sendable(f) && |lin| == |Wire(f)| && i + 2 <= |lin| && lin != Wire(f)
    requires forall k :: 0 <= k < |lin| && k != i && k != i + 1 ==> lin[k] == Wire(f)[k]
    ensures !Decode([START] + Stuff(lin)).Ok?
  {
    var buf := [START] + Stuff(lin);
    if Decode(buf).Ok? {
      var g := Decode(buf).frame;
      UnstuffStuff(lin, [], MAX_LINEAR);
      assert buf[1..] == Stuff(lin) + [];
      ParsesAsIff(lin, g);
      WireResidue(f);
      WireResidue(g);
      BitsDiffer(lin, Wire(f));
      Crc16.BurstDetected(Bits(lin), Bits(Wire(f)), i);
    }
  }

  /** The register ends at zero on every frame. */
  lemma WireResidue(f: Frame)
    requires |f.payload| < 0x1_0000
    ensures Crc16.Crc(Crc16.INIT, Bits(Wire(f))) == 0
  {
    var crc := Crc16.Crc(Crc16.INIT, Bits(Body(f)));
    Crc16.JoinParts(crc);
    Crc16.ResidueIff(Bits(Body(f)), Crc16.High(crc), Crc16.Low(crc));
    BitsOf(Crc16.High(crc));
    BitsOf(Crc16.Low(crc));
    assert Bits(Wire(f)) == Bits(Body(f)) + [Crc16.High(crc), Crc16.Low(crc)];
  }

  lemma BitsOf(b: Crc16.Byte)
    ensures ToBits(FromBits(b)) == b
  {
    SameByte(ToBits(FromBits(b)), b);
  }

  lemma BitsDiffer(s: seq<Octet>, t: seq<Octet>)
    requires |s| == |t| && s != t
    ensures Bits(s) != Bits(t)
  {
    var k :| 0 <= k < |s| && s[k] != t[k];
    assert Bits(s)[k] != Bits(t)[k];
  }
}
