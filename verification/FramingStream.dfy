/**
 The receiver: bytes come off the UART one at a time, a START followed by anything
 but zero restarts the frame, and running out of bytes is a timeout.
 */
module FramingStream {
  import opened Common
  import opened Framing

  // ---------------------------------------------------------------------
  // The receiver as a function of the bytes that arrive
  // ---------------------------------------------------------------------

  datatype Logical = Quiet | Data(b: Octet, rest: seq<Octet>) | Restart(kind: Octet, rest: seq<Octet>)

  /** One unstuffed byte. */
  function ReadLogical(s: seq<Octet>): (r: Logical) {
    if s == [] then Quiet
    else if s[0] != START then Data(s[0], s[1..])
    else if |s| == 1 then Quiet
    else if s[1] == 0 then Data(START, s[2..])
    else Restart(s[1], s[2..])
  }

  datatype Batch = Short | All(bytes: seq<Octet>, rest: seq<Octet>) | Broken(kind: Octet, rest: seq<Octet>)

  /** n unstuffed bytes, unless the stream ends or a new frame starts. */
  function ReadMany(s: seq<Octet>, n: nat): (r: Batch)
    ensures r.All? ==> |r.bytes| == n && |r.rest| <= |s|
    ensures r.Broken? ==> |r.rest| < |s|
    decreases n
  {
    if n == 0 then All([], s) else
      match ReadLogical(s)
      case Quiet => Short
      case Restart(k, rest) => Broken(k, rest)
      case Data(b, rest) =>
        match ReadMany(rest, n - 1)
        case All(bytes, rest') => All([b] + bytes, rest')
        case other => other
  }

  predicate KnownKind(k: Octet) {
    1 <= k <= 3
  }

  /** Scan for a START followed by a known type. */
  function Sync(s: seq<Octet>): (r: Option<(Octet, seq<Octet>)>)
    decreases |s|
  {
    if |s| < 2 then None
    else if s[0] != START then Sync(s[1..])
    else if KnownKind(s[1]) then Some((s[1], s[2..]))
    else Sync(s[2..])
  }

  datatype Received = Got(frame: Frame) | BadCrc(frame: Frame) | TooLong | Timeout

  /** The rest of a frame once its type is known: the outcome and the bytes left unread. */
  function FromKind(kind: Octet, s: seq<Octet>): (r: (Received, seq<Octet>))
    decreases |s|
  {
    match ReadMany(s, 3)
    case Short => (Timeout, [])
    case Broken(k, rest) => FromKind(k, rest)
    case All(hdr, s1) =>
      var n := Length(hdr[1], hdr[2]);
      if n > MAX_PAYLOAD then (TooLong, s1) else
        match ReadMany(s1, n)
        case Short => (Timeout, [])
        case Broken(k, rest) => FromKind(k, rest)
        case All(payload, s2) =>
          match ReadMany(s2, 2)
          case Short => (Timeout, [])
          case Broken(k, rest) => FromKind(k, rest)
          case All(crc, s3) =>
            var f := Frame(kind, hdr[0], payload);
            (if Check([kind] + hdr + payload) == crc then Got(f) else BadCrc(f), s3)
  }

  function Recv(s: seq<Octet>): (r: (Received, seq<Octet>)) {
    match Sync(s)
    case None => (Timeout, [])
    case Some((kind, rest)) => FromKind(kind, rest)
  }

  // ---------------------------------------------------------------------
  // Reading stuffed bytes back
  // ---------------------------------------------------------------------

  lemma ReadStuff1(b: Octet, rest: seq<Octet>)
    ensures ReadLogical(Stuff1(b) + rest) == Data(b, rest)
  {
    var s := Stuff1(b) + rest;
    assert s[|Stuff1(b)|..] == rest;
  }

  /** Bytes that were stuffed come back; a short supply is ended by what follows it. */
  lemma {:induction false} ReadStuffed(t: seq<Octet>, rest: seq<Octet>, n: nat)
    ensures n <= |t| ==> ReadMany(Stuff(t) + rest, n) == All(t[..n], Stuff(t[n..]) + rest)
    ensures n > |t| && rest == [] ==> ReadMany(Stuff(t) + rest, n) == Short
    ensures n > |t| && |rest| >= 2 && rest[0] == START && rest[1] != 0 ==>
      ReadMany(Stuff(t) + rest, n) == Broken(rest[1], rest[2..])
    decreases n
  {
    if t == [] {
      assert Stuff(t) + rest == rest;
    } else if n > 0 {
      var more := Stuff(t[1..]) + rest;
      assert Stuff(t) + rest == Stuff1(t[0]) + more;
      ReadOneMore(t[0], more, n);
      ReadStuffed(t[1..], rest, n - 1);
      if n <= |t| { SliceStep(t, n); }
    } else {
      assert t[0..] == t;
    }
  }

  lemma ReadOneMore(b: Octet, more: seq<Octet>, n: nat)
    requires n > 0
    ensures ReadMany(Stuff1(b) + more, n) ==
      match ReadMany(more, n - 1) { case All(bytes, rest) => All([b] + bytes, rest) case other => other }
  {
    ReadStuff1(b, more);
  }

  lemma SliceStep(t: seq<Octet>, n: nat)
    requires 0 < n <= |t|
    ensures t[..n] == [t[0]] + t[1..][..n - 1] && t[1..][n - 1..] == t[n..]
  {
  }

  /** What follows the type byte of a frame. */
  function Tail(f: Frame): (s: seq<Octet>)
    requires Sendable(f)
  {
    Wire(f)[1..]
  }

  lemma TailParts(f: Frame)
    requires Sendable(f)
    ensures var n, w := |f.payload|, Tail(f);
      && |w| == n + 5 && w[0] == f.sq && Length(w[1], w[2]) == n
      && w[3..][..n] == f.payload && w[3..][n..] == Check(Body(f))
      && [f.kind] + w[..3] + f.payload == Body(f)
  {
    var n := |f.payload|;
    HeadParts([f.kind, f.sq, n / 256, n % 256], f.payload, Check(Body(f)));
  }

  lemma HeadParts(head: seq<Octet>, payload: seq<Octet>, check: seq<Octet>)
    requires |head| == 4
    ensures var w := (head + payload + check)[1..];
      && |w| == 3 + |payload| + |check| && w[0] == head[1] && w[1] == head[2] && w[2] == head[3]
      && w[3..] == payload + check
      && w[3..][..|payload|] == payload && w[3..][|payload|..] == check
      && [head[0]] + w[..3] + payload == head + payload
  {
    var w := (head + payload + check)[1..];
    assert w[3..] == payload + check;
    assert w[..3] == head[1..];
    assert [head[0]] + head[1..] == head;
  }

  /** A whole frame after its type byte is received, and nothing after it is touched. */
  lemma WholeFrame(f: Frame, rest: seq<Octet>)
    requires Sendable(f)
    ensures FromKind(f.kind, Stuff(Tail(f)) + rest) == (Got(f), rest)
  {
    AnyChecked(f, Check(Body(f)), rest);
  }

  /** Whatever stands where the checksum belongs. */
  lemma AnyChecked(f: Frame, check: seq<Octet>, rest: seq<Octet>)
    requires Sendable(f) && |check| == 2
    ensures FromKind(f.kind, Stuff((Body(f) + check)[1..]) + rest) ==
      (if check == Check(Body(f)) then Got(f) else BadCrc(f), rest)
  {
    var n, w := |f.payload|, (Body(f) + check)[1..];
    HeadParts([f.kind, f.sq, n / 256, n % 256], f.payload, check);
    ReadStuffed(w, rest, 3);
    FromHeader(f, w[..3], check, Stuff(w) + rest, rest);
  }

  /** Once the header is read. */
  lemma FromHeader(f: Frame, hdr: seq<Octet>, check: seq<Octet>, s: seq<Octet>, rest: seq<Octet>)
    requires Sendable(f) && |check| == 2 && |hdr| == 3 && hdr[0] == f.sq && Length(hdr[1], hdr[2]) == |f.payload|
    requires [f.kind] + hdr + f.payload == Body(f)
    requires ReadMany(s, 3) == All(hdr, Stuff(f.payload + check) + rest)
    ensures FromKind(f.kind, s) == (if check == Check(Body(f)) then Got(f) else BadCrc(f), rest)
  {
    var n, w := |f.payload|, f.payload + check;
    ReadStuffed(w, rest, n);
    assert w[..n] == f.payload && w[n..] == check;
    ReadStuffed(check, rest, 2);
    assert check[..2] == check && Stuff(check[2..]) + rest == rest;
  }

  /** A frame cut short gives way to the START and type that follow it. */
  lemma CutFrame(f: Frame, j: nat, k: Octet, rest: seq<Octet>)
    requires Sendable(f) && j < |Tail(f)| && k != 0
    ensures FromKind(f.kind, Stuff(Tail(f)[..j]) + ([START, k] + rest)) == FromKind(k, rest)
  {
    var n, t, next := |f.payload|, Tail(f)[..j], [START, k] + rest;
    TailParts(f);
    assert next[2..] == rest;
    ReadStuffed(t, next, 3);
    if j >= 3 {
      CutLength(f, j);
      CutPayload(f.kind, n, t, k, rest);
    }
  }

  lemma CutLength(f: Frame, j: nat)
    requires Sendable(f) && 3 <= j < |Tail(f)|
    ensures Length(Tail(f)[..j][1], Tail(f)[..j][2]) == |f.payload| && j < |f.payload| + 5
  {
    TailParts(f);
  }

  /** The cut falls in the payload or the checksum. */
  lemma CutPayload(kind: Octet, n: nat, t: seq<Octet>, k: Octet, rest: seq<Octet>)
    requires k != 0 && n <= MAX_PAYLOAD && 3 <= |t| < n + 5 && Length(t[1], t[2]) == n
    ensures FromKind(kind, Stuff(t) + ([START, k] + rest)) == FromKind(k, rest)
  {
    var next := [START, k] + rest;
    assert next[2..] == rest;
    ReadStuffed(t, next, 3);
    ReadStuffed(t[3..], next, n);
    if |t| >= 3 + n { ReadStuffed(t[3..][n..], next, 2); }
  }

  // ---------------------------------------------------------------------
  // Streams of frames
  // ---------------------------------------------------------------------

  ghost predicate Proper(f: Frame) {
    Sendable(f) && KnownKind(f.kind)
  }

  /** START and type, then the stuffed rest. */
  lemma EncodeParts(f: Frame)
    requires Proper(f)
    ensures Encode(f) == [START, f.kind] + Stuff(Tail(f))
  {
    assert Wire(f)[0] == f.kind;
  }

  lemma Starts(k: Octet, rest: seq<Octet>)
    requires KnownKind(k)
    ensures Recv([START, k] + rest) == FromKind(k, rest)
  {
    assert ([START, k] + rest)[2..] == rest;
  }

  lemma ReceivesOne(f: Frame, rest: seq<Octet>)
    requires Proper(f)
    ensures Recv(Encode(f) + rest) == (Got(f), rest)
  {
    EncodeParts(f);
    WholeFrame(f, rest);
    Starts(f.kind, Stuff(Tail(f)) + rest);
    Regroup([START, f.kind], Stuff(Tail(f)), rest);
  }

  /** A frame with the wrong checksum is read whole and reported with its fields. */
  lemma ReceivesDamaged(f: Frame, check: seq<Octet>, rest: seq<Octet>)
    requires Proper(f) && Damaged(Body(f) + check, f, check)
    ensures Recv([START] + Stuff(Body(f) + check) + rest) == (BadCrc(f), rest)
  {
    var w := Body(f) + check;
    assert w[0] == f.kind && Stuff1(f.kind) == [f.kind];
    assert [START] + Stuff(w) == [START, f.kind] + Stuff(w[1..]);
    Regroup([START, f.kind], Stuff(w[1..]), rest);
    AnyChecked(f, check, rest);
    Starts(f.kind, Stuff(w[1..]) + rest);
  }

  /** A length over 256 is refused as soon as it is read. */
  lemma ReceivesTooLong(kind: Octet, sq: Octet, hi: Octet, lo: Octet, rest: seq<Octet>)
    requires 1 <= kind <= 3 && 256 * hi + lo > 256
    ensures Recv([0xAA, kind] + (Stuff([sq, hi, lo]) + rest)) == (TooLong, rest)
  {
    var w := [sq, hi, lo];
    ReadStuffed(w, rest, 3);
    assert w[..3] == w && Stuff(w[3..]) + rest == rest;
    Starts(kind, Stuff(w) + rest);
  }

  /** A START begins a frame exactly when a type from 1 to 3 follows it. */
  lemma BeginsIff(k: Octet, rest: seq<Octet>)
    ensures Sync([0xAA, k] + rest) == if 1 <= k <= 3 then Some((k, rest)) else Sync(rest)
  {
    assert ([0xAA, k] + rest)[2..] == rest;
  }

  /** A frame that stops short, with nothing after it, times out. */
  lemma ReceivesNothing(f: Frame, j: nat)
    requires Proper(f) && j < |Tail(f)|
    ensures Recv([0xAA, f.kind] + Stuff(Tail(f)[..j])) == (Timeout, [])
  {
    var n, t := |f.payload|, Tail(f)[..j];
    Starts(f.kind, Stuff(t));
    assert Stuff(t) + [] == Stuff(t);
    ReadStuffed(t, [], 3);
    if j >= 3 {
      CutLength(f, j);
      ReadStuffed(t[3..], [], n);
      assert Stuff(t[3..]) + [] == Stuff(t[3..]);
      if j >= 3 + n { ReadStuffed(t[3..][n..], [], 2); }
    }
  }

  lemma Regroup(a: seq<Octet>, b: seq<Octet>, c: seq<Octet>)
    ensures (a + b) + c == a + (b + c)
  {
  }

  function EncodeAll(fs: seq<Frame>): (s: seq<Octet>)
    requires forall i :: 0 <= i < |fs| ==> Proper(fs[i])
  {
    if fs == [] then [] else
      assert Proper(fs[0]);
      Encode(fs[0]) + EncodeAll(fs[1..])
  }

  /** n receptions in a row. */
  function RecvMany(s: seq<Octet>, n: nat): (r: (seq<Received>, seq<Octet>))
    decreases n
  {
    if n == 0 then ([], s) else
      var one := Recv(s);
      var more := RecvMany(one.1, n - 1);
      ([one.0] + more.0, more.1)
  }

  /** Every sequence of frames is received as it was sent: all of them, in order, and nothing else. */
  lemma {:induction false} ReceivesAll(fs: seq<Frame>, rest: seq<Octet>)
    requires forall i :: 0 <= i < |fs| ==> Proper(fs[i])
    ensures var r := RecvMany(EncodeAll(fs) + rest, |fs|);
      && r.1 == rest
      && |r.0| == |fs| && forall i :: 0 <= i < |fs| ==> r.0[i] == Got(fs[i])
  {
    if fs != [] {
      var more := EncodeAll(fs[1..]) + rest;
      assert EncodeAll(fs) + rest == Encode(fs[0]) + more;
      ReceivesOne(fs[0], more);
      ReceivesAll(fs[1..], rest);
    }
  }

  // ---------------------------------------------------------------------
  // Recovery after a frame that was cut short
  // ---------------------------------------------------------------------

  /** A prefix of stuffed bytes ends between bytes, or inside an escape. */
  lemma {:induction false} PrefixOfStuffed(s: seq<Octet>, p: seq<Octet>) returns (j: nat, inside: bool)
    requires p <= Stuff(s)
    ensures j <= |s|
    ensures !inside ==> p == Stuff(s[..j])
    ensures inside ==> j < |s| && s[j] == START && p == Stuff(s[..j]) + [START]
    ensures p != Stuff(s) ==> j < |s|
  {
    if p == [] {
      j, inside := 0, false;
    } else if |p| < |Stuff1(s[0])| {
      j, inside := 0, true;
    } else {
      var k := |Stuff1(s[0])|;
      assert p[k..] <= Stuff(s[1..]);
      var j', inside' := PrefixOfStuffed(s[1..], p[k..]);
      j, inside := j' + 1, inside';
      assert p == Stuff1(s[0]) + p[k..];
      assert s[..j][1..] == s[1..][..j'];
    }
  }

  /** Stuffed bytes end in START only when the last escape is missing its zero. */
  lemma {:induction false} StuffedEnd(s: seq<Octet>)
    requires s != []
    ensures Stuff(s) != [] && Stuff(s)[|Stuff(s)| - 1] != START
  {
    if |s| > 1 { StuffedEnd(s[1..]); }
  }

  /** Nothing inside stuffed bytes looks like the start of a frame. */
  lemma {:induction false} NoSyncInside(s: seq<Octet>, rest: seq<Octet>)
    ensures Sync(Stuff(s) + rest) == Sync(rest)
  {
    if s == [] {
      assert Stuff(s) + rest == rest;
    } else {
      var more := Stuff(s[1..]) + rest;
      NoSyncInside(s[1..], rest);
      assert Stuff(s) + rest == Stuff1(s[0]) + more;
      SkipOne(s[0], more);
    }
  }

  lemma SkipOne(b: Octet, more: seq<Octet>)
    ensures Sync(Stuff1(b) + more) == Sync(more)
  {
    var s := Stuff1(b) + more;
    assert s[|Stuff1(b)|..] == more;
  }

  /** Synchronising takes up at least two bytes, and receiving a frame gives none back. */
  lemma {:induction false} SyncShorter(s: seq<Octet>)
    ensures Sync(s).Some? ==> |Sync(s).value.1| + 2 <= |s|
    decreases |s|
  {
    if |s| >= 2 {
      SyncShorter(s[1..]);
      SyncShorter(s[2..]);
    }
  }

  lemma {:induction false} FromKindShorter(kind: Octet, s: seq<Octet>)
    ensures |FromKind(kind, s).1| <= |s|
    decreases |s|
  {
    var hdr := ReadMany(s, 3);
    if hdr.Broken? { FromKindShorter(hdr.kind, hdr.rest); }
    if hdr.All? && Length(hdr.bytes[1], hdr.bytes[2]) <= MAX_PAYLOAD {
      var payload := ReadMany(hdr.rest, Length(hdr.bytes[1], hdr.bytes[2]));
      if payload.Broken? { FromKindShorter(payload.kind, payload.rest); }
      if payload.All? {
        var crc := ReadMany(payload.rest, 2);
        if crc.Broken? { FromKindShorter(crc.kind, crc.rest); }
      }
    }
  }

  /** The reader is still in the stuffed bytes in front of `rest`, or has come into `rest`. */
  ghost predicate Over(s: seq<Octet>, t: seq<Octet>, rest: seq<Octet>) {
    s == Stuff(t) + rest || |s| <= |rest|
  }

  /** A frame that cuts in does so behind the stuffed bytes. */
  lemma {:induction false} ReadOver(s: seq<Octet>, t: seq<Octet>, rest: seq<Octet>, n: nat) returns (t': seq<Octet>)
    requires Over(s, t, rest)
    ensures var r := ReadMany(s, n);
      (r.All? ==> Over(r.rest, t', rest)) && (r.Broken? ==> |r.rest| < |rest|)
    decreases n
  {
    t' := t;
    assert Stuff([]) + rest == rest;
    if t != [] && |s| > |rest| && n > 0 {
      var more := Stuff(t[1..]) + rest;
      assert s == Stuff1(t[0]) + more;
      ReadOneMore(t[0], more, n);
      t' := ReadOver(more, t[1..], rest, n - 1);
    }
  }

  /** Read from stuffed bytes, a frame keeps the type it was started with, unless one behind them cuts in. */
  lemma KindKept(kind: Octet, t: seq<Octet>, rest: seq<Octet>)
    ensures var r := FromKind(kind, Stuff(t) + rest); r.0.Got? ==> r.0.frame.kind == kind || |r.1| < |rest|
  {
    var s := Stuff(t) + rest;
    var t1 := ReadOver(s, t, rest, 3);
    var hdr := ReadMany(s, 3);
    if hdr.Broken? { FromKindShorter(hdr.kind, hdr.rest); }
    if hdr.All? {
      var n := Length(hdr.bytes[1], hdr.bytes[2]);
      var t2 := ReadOver(hdr.rest, t1, rest, n);
      var payload := ReadMany(hdr.rest, n);
      if payload.Broken? { FromKindShorter(payload.kind, payload.rest); }
      if payload.All? {
        var t3 := ReadOver(payload.rest, t2, rest, 2);
        var crc := ReadMany(payload.rest, 2);
        if crc.Broken? { FromKindShorter(crc.kind, crc.rest); }
      }
    }
  }

  ghost predicate EndsInStart(p: seq<Octet>) {
    p != [] && p[|p| - 1] == START
  }

  /**
   Whatever part of a frame arrived before it broke off, and whatever comes behind the
   next frame, that one is received intact with the rest unread exactly when the part
   does not end in a START byte.
   */
  lemma NextFrameIff(f: Frame, p: seq<Octet>, g: Frame, rest: seq<Octet>)
    requires Proper(f) && Proper(g) && p <= Encode(f) && p != Encode(f)
    ensures Recv(p + (Encode(g) + rest)) == (Got(g), rest) <==> !EndsInStart(p)
  {
    EncodeParts(g);
    if p == [] {
      ReceivesOne(g, rest);
      assert p + (Encode(g) + rest) == Encode(g) + rest;
    } else if |p| == 1 {
      LoneStart(g, rest);
      assert p == [START];
    } else {
      EncodeParts(f);
      assert p == [START, f.kind] + p[2..];
      CutIff(f, p[2..], g, rest);
    }
  }

  /** The cut behind the type byte: q is what arrived of the stuffed rest. */
  lemma CutIff(f: Frame, q: seq<Octet>, g: Frame, rest: seq<Octet>)
    requires Proper(f) && Proper(g) && q <= Stuff(Tail(f)) && q != Stuff(Tail(f))
    ensures var p := [START, f.kind] + q; Recv(p + (Encode(g) + rest)) == (Got(g), rest) <==> !EndsInStart(p)
  {
    var j, inside := PrefixOfStuffed(Tail(f), q);
    if inside {
      CutInside(f, j, g, rest);
    } else {
      CutBetween(f, j, g, rest);
      if j > 0 { StuffedEnd(Tail(f)[..j]); }
    }
  }

  /** The good case, with anything at all behind the next frame. */
  lemma CutBetween(f: Frame, j: nat, g: Frame, rest: seq<Octet>)
    requires Proper(f) && Proper(g) && j < |Tail(f)|
    ensures Recv([START, f.kind] + Stuff(Tail(f)[..j]) + (Encode(g) + rest)) == (Got(g), rest)
  {
    EncodeParts(g);
    var cut, more := Stuff(Tail(f)[..j]), Stuff(Tail(g)) + rest;
    assert Encode(g) + rest == [START, g.kind] + more;
    Starts(f.kind, cut + ([START, g.kind] + more));
    Regroup([START, f.kind], cut, [START, g.kind] + more);
    CutFrame(f, j, g.kind, more);
    WholeFrame(g, rest);
  }

  /** Cut inside an escape, the next frame is lost: one of its type comes only from further on. */
  lemma CutInside(f: Frame, j: nat, g: Frame, rest: seq<Octet>)
    requires Proper(f) && Proper(g) && j < |Tail(f)|
    ensures var r := Recv([START, f.kind] + (Stuff(Tail(f)[..j]) + [START]) + (Encode(g) + rest));
      r.0 == Got(g) ==> |r.1| < |rest|
  {
    EncodeParts(g);
    var cut, more := Stuff(Tail(f)[..j]), [g.kind] + (Stuff(Tail(g)) + rest);
    Regroup([START, g.kind], Stuff(Tail(g)), rest);
    StartPair([START, f.kind], cut, g.kind, Stuff(Tail(g)) + rest);
    Starts(f.kind, cut + ([START, START] + more));
    CutFrame(f, j, START, more);
    KindStuffed(g, rest);
    KindKept(START, [g.kind] + Tail(g), rest);
  }

  lemma StartPair(a: seq<Octet>, cut: seq<Octet>, k: Octet, tail: seq<Octet>)
    ensures a + (cut + [START]) + ([START, k] + tail) == a + (cut + ([START, START] + ([k] + tail)))
  {
  }

  lemma KindStuffed(g: Frame, rest: seq<Octet>)
    requires Proper(g)
    ensures [g.kind] + (Stuff(Tail(g)) + rest) == Stuff([g.kind] + Tail(g)) + rest
  {
    StuffCons(g.kind, Tail(g));
  }

  /** A lone START costs the next frame: the wait ends, or goes on into what is behind it. */
  lemma LoneStart(g: Frame, rest: seq<Octet>)
    requires Proper(g)
    ensures var r := Recv([START] + (Encode(g) + rest)); r.0 == Timeout || |r.1| < |rest|
    ensures Recv([START] + Encode(g)).0 == Timeout
  {
    LoneSync(g, rest);
    LoneSync(g, []);
    assert Encode(g) + [] == Encode(g);
    SyncShorter(rest);
    if Sync(rest).Some? { FromKindShorter(Sync(rest).value.0, Sync(rest).value.1); }
  }

  lemma LoneSync(g: Frame, rest: seq<Octet>)
    requires Proper(g)
    ensures Sync([START] + (Encode(g) + rest)) == Sync(rest)
  {
    EncodeParts(g);
    var s := [START] + (Encode(g) + rest);
    assert s[2..] == [g.kind] + (Stuff(Tail(g)) + rest);
    KindStuffed(g, rest);
    NoSyncInside([g.kind] + Tail(g), rest);
  }
}
