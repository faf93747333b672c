/** Framing as it runs: buffers filled by index, and a link that is consumed byte by byte. */
module FramingLink {
  import opened Common
  import opened Framing
  import S = FramingStream

  method BuildWire(f: Frame) returns (wire: seq<Octet>)
    requires Sendable(f)
    ensures wire == Wire(f)
  {
    var len := |f.payload|;
    var body: seq<Octet> := [f.kind, f.sq, len / 256, len % 256] + f.payload;
    var crc := Crc16.Compute(Bits(body));
    wire := body + [FromBits(Crc16.High(crc)), FromBits(Crc16.Low(crc))];
  }

  /** Fill `out` with the stuffed frame; the number of bytes used, or -1 for an oversized payload. */
  method EncodeInto(out: array<Octet>, f: Frame) returns (k: int)
    requires out.Length >= MAX_ENCODED
    modifies out
    ensures |f.payload| > MAX_PAYLOAD ==> k == -1 && out[..] == old(out[..])
    ensures |f.payload| <= MAX_PAYLOAD ==> 0 <= k <= MAX_ENCODED && out[..k] == Encode(f)
  {
    if |f.payload| > MAX_PAYLOAD {
      return -1;
    }
    var wire := BuildWire(f);
    EncodedFits(f);
    k := StuffInto(out, wire);
  }

  method StuffInto(out: array<Octet>, wire: seq<Octet>) returns (k: nat)
    requires 1 + |Stuff(wire)| <= out.Length
    modifies out
    ensures k == 1 + |Stuff(wire)| && out[..k] == [START] + Stuff(wire)
  {
    out[0] := START;
    k := 1;
    for i := 0 to |wire|
      invariant 1 <= k == 1 + |Stuff(wire[..i])| <= out.Length
      invariant out[..k] == [START] + Stuff(wire[..i])
    {
      ghost var so, now := [START] + Stuff(wire[..i]), [START] + Stuff(wire[..i + 1]);
      assert now == so + Stuff1(wire[i]) && |now| <= out.Length by {
        StuffSnoc(wire, i);
        StuffPrefix(wire, i + 1);
      }
      out[k] := wire[i];
      k := k + 1;
      assert out[..k] == so + [wire[i]];
      if wire[i] == START {
        out[k] := 0;
        k := k + 1;
        assert out[..k] == so + [wire[i]] + [0];
      }
      assert out[..k] == now;
    }
    assert wire[..|wire|] == wire;
  }

  lemma StuffSnoc(s: seq<Octet>, i: nat)
    requires i < |s|
    ensures Stuff(s[..i + 1]) == Stuff(s[..i]) + Stuff1(s[i])
  {
    StuffConcat(s[..i], [s[i]]);
    assert s[..i + 1] == s[..i] + [s[i]];
    assert Stuff([s[i]]) == Stuff1(s[i]) + Stuff([s[i]][1..]);
  }

  lemma StuffPrefix(s: seq<Octet>, i: nat)
    requires i <= |s|
    ensures |Stuff(s[..i])| <= |Stuff(s)|
  {
    StuffConcat(s[..i], s[i..]);
    assert s == s[..i] + s[i..];
  }

  /** Un-stuff into a bounded linear buffer, then parse it. */
  method DecodeBuffer(buf: seq<Octet>) returns (r: Decoded)
    ensures r == Decode(buf)
  {
    if |buf| < 1 || buf[0] != START {
      return BadLength;
    }
    var lin := new Octet[MAX_LINEAR];
    var lpos, pos: nat := 0, 1;
    PrependNone(Unstuff(buf[1..], MAX_LINEAR));
    while pos < |buf| && lpos < MAX_LINEAR
      invariant 1 <= pos <= |buf| && lpos <= MAX_LINEAR
      invariant Unstuff(buf[1..], MAX_LINEAR) == PrependAll(lin[..lpos], Unstuff(buf[pos..], MAX_LINEAR - lpos))
    {
      var b := buf[pos];
      ghost var before, at := lin[..lpos], pos;
      pos := pos + 1;
      if b == START {
        if pos >= |buf| || buf[pos] != 0 {
          return BadLength;
        }
        pos := pos + 1;
        assert buf[at..][2..] == buf[pos..];
      } else {
        assert buf[at..][1..] == buf[pos..];
      }
      lin[lpos] := b;
      lpos := lpos + 1;
      assert lin[..lpos] == before + [b];
      PrependSnoc(before, b, Unstuff(buf[pos..], MAX_LINEAR - lpos));
    }
    assert lin[..lpos] + [] == lin[..lpos];
    r := ParseLinear(lin[..lpos]);
  }

  ghost function PrependAll(s: seq<Octet>, r: Option<seq<Octet>>): (r': Option<seq<Octet>>) {
    if r.None? then None else Some(s + r.value)
  }

  lemma PrependNone(r: Option<seq<Octet>>)
    ensures PrependAll([], r) == r
  {
    if r.Some? { assert [] + r.value == r.value; }
  }

  lemma PrependSnoc(s: seq<Octet>, b: Octet, r: Option<seq<Octet>>)
    ensures PrependAll(s, Prepend(b, r)) == PrependAll(s + [b], r)
  {
    if r.Some? { assert s + ([b] + r.value) == s + [b] + r.value; }
  }

  method ParseLinear(lin: seq<Octet>) returns (r: Decoded)
    ensures r == Parse(lin)
  {
    if |lin| < 6 {
      return BadLength;
    }
    var plen := Length(lin[2], lin[3]);
    if plen > MAX_PAYLOAD || |lin| != plen + 6 {
      return BadLength;
    }
    var sum := Crc16.Compute(Bits(lin[..4 + plen]));
    var f := Frame(lin[0], lin[1], lin[4..4 + plen]);
    var good := lin[4 + plen] == FromBits(Crc16.High(sum)) && lin[5 + plen] == FromBits(Crc16.Low(sum));
    assert lin[4 + plen..] == [lin[4 + plen], lin[5 + plen]];
    return if good then Ok(f) else CrcError(f);
  }

  /** The receiving end: the bytes still to come before the deadline, and the statistics. */
  class Link {
    var stream: seq<Octet>
    var framesRecv: nat
    var crcErrors: nat

    constructor (bytes: seq<Octet>)
      ensures stream == bytes && framesRecv == 0 && crcErrors == 0
    {
      stream, framesRecv, crcErrors := bytes, 0, 0;
    }

    /** The next byte, or -1 at the deadline. */
    method RecvByte() returns (b: int)
      modifies this`stream
      ensures old(stream) == [] ==> b == -1 && stream == []
      ensures old(stream) != [] ==> b == old(stream)[0] && stream == old(stream)[1..]
    {
      if stream == [] {
        return -1;
      }
      b := stream[0];
      stream := stream[1..];
    }

    /** A data byte, -1 on timeout, or -2 with the type of a frame that started here. */
    method ReadLogical() returns (b: int, kind: Octet)
      modifies this`stream
      ensures match S.ReadLogical(old(stream))
        case Quiet => b == -1 && stream == []
        case Data(d, rest) => b == d && stream == rest
        case Restart(k, rest) => b == -2 && kind == k && stream == rest
    {
      kind := 0;
      b := RecvByte();
      if b == START {
        var n := RecvByte();
        if n < 0 {
          return -1, 0;
        }
        if n == 0 {
          return START, 0;
        }
        return -2, n;
      }
    }

    /** Skip to a START followed by a known type. */
    method SyncStart() returns (kind: int)
      modifies this`stream
      ensures match S.Sync(old(stream))
        case None => kind == -1 && stream == []
        case Some((k, rest)) => kind == k && stream == rest
    {
      ghost var goal := S.Sync(stream);
      while true
        invariant S.Sync(stream) == goal
        decreases |stream|
      {
        var b := RecvByte();
        if b < 0 {
          return -1;
        }
        if b == START {
          var t := RecvByte();
          if t < 0 {
            return -1;
          }
          if S.KnownKind(t) {
            return t;
          }
        }
      }
    }

    /** Read n logical bytes; `end` is 0 when all came, else -1 or -2 as from ReadLogical. */
    method ReadMany(n: nat) returns (end: int, bytes: seq<Octet>, kind: Octet)
      modifies this`stream
      ensures match S.ReadMany(old(stream), n)
        case Short => end == -1 && stream == []
        case Broken(k, rest) => end == -2 && kind == k && stream == rest
        case All(bs, rest) => end == 0 && bytes == bs && stream == rest
    {
      bytes, kind := [], 0;
      ghost var s := stream;
      for i := 0 to n
        invariant |bytes| == i
        invariant Glue(bytes, S.ReadMany(stream, n - i)) == S.ReadMany(s, n)
      {
        ghost var more := S.ReadMany(stream, n - i);
        ghost var had := bytes;
        var b, k := ReadLogical();
        if b < 0 {
          return b, bytes, k;
        }
        bytes := bytes + [b];
        GlueSnoc(had, b, S.ReadMany(stream, n - i - 1));
      }
      end := 0;
    }

    static ghost function Glue(s: seq<Octet>, r: S.Batch): (r': S.Batch) {
      if r.All? then S.All(s + r.bytes, r.rest) else r
    }

    static lemma GlueSnoc(s: seq<Octet>, b: Octet, r: S.Batch)
      ensures Glue(s, if r.All? then S.All([b] + r.bytes, r.rest) else r) == Glue(s + [b], r)
    {
      if r.All? { assert s + ([b] + r.bytes) == s + [b] + r.bytes; }
    }

    /** Read on after a type byte: an outcome, or None and the type of a frame that cut in. */
    method Attempt(kind: Octet) returns (r: Option<S.Received>, next: Octet)
      modifies this`stream
      ensures r.None? ==> S.FromKind(next, stream) == S.FromKind(kind, old(stream)) && |stream| < |old(stream)|
      ensures r.Some? ==> (r.value, stream) == S.FromKind(kind, old(stream))
    {
      var end, hdr, k := ReadMany(3);
      if end == -1 { return Some(S.Timeout), 0; }
      if end == -2 { return None, k; }
      var len := Length(hdr[1], hdr[2]);
      if len > MAX_PAYLOAD { return Some(S.TooLong), 0; }
      var payload;
      end, payload, k := ReadMany(len);
      if end == -1 { return Some(S.Timeout), 0; }
      if end == -2 { return None, k; }
      var crc;
      end, crc, k := ReadMany(2);
      if end == -1 { return Some(S.Timeout), 0; }
      if end == -2 { return None, k; }
      var sum := Crc16.Compute(Bits([kind] + hdr + payload));
      var f := Frame(kind, hdr[0], payload);
      if crc != [FromBits(Crc16.High(sum)), FromBits(Crc16.Low(sum))] {
        return Some(S.BadCrc(f)), 0;
      }
      return Some(S.Got(f)), 0;
    }

    /** Assemble one frame, starting over whenever a new START cuts in. */
    method Recv() returns (r: S.Received)
      modifies this
      ensures (r, stream) == S.Recv(old(stream))
      ensures framesRecv == if r.Got? then (old(framesRecv) + 1) % 0x1_0000_0000 else old(framesRecv)
      ensures crcErrors == if r.BadCrc? then (old(crcErrors) + 1) % 0x1_0000_0000 else old(crcErrors)
    {
      ghost var s := stream;
      var t := SyncStart();
      if t < 0 {
        return S.Timeout;
      }
      var kind: Octet := t;
      var got: Option<S.Received> := None;
      while got.None?
        modifies this`stream
        invariant got.None? ==> S.FromKind(kind, stream) == S.Recv(s)
        invariant got.Some? ==> (got.value, stream) == S.Recv(s)
        decreases got.None?, |stream|
      {
        got, kind := Attempt(kind);
      }
      r := got.value;
      if r.BadCrc? {
        crcErrors := (crcErrors + 1) % 0x1_0000_0000;
      }
      if r.Got? {
        framesRecv := (framesRecv + 1) % 0x1_0000_0000;
      }
    }
  }
}
