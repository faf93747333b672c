/**
 CRC-16/CCITT as the framing layer computes it: polynomial 0x1021, initial value
 0xFFFF, most significant bit first, no final inversion.

 The checksum is a fold of `Absorb` over the bytes. What it detects follows from
 three laws of the shift register (`Register`): it is linear, it loses nothing,
 and a low byte passes through eight steps untouched.
 */
module Crc16 {

  type Byte = bv8

  const INIT: bv16 := 0xFFFF
  const BITS: nat := 8

  function Shift1(c: bv16): (r: bv16) {
    if c & 0x8000 != 0 then (c << 1) ^ 0x1021 else c << 1
  }

  function Iterate<T>(f: T -> T, c: T, n: nat): (r: T)
    decreases n
  {
    if n == 0 then c else Iterate(f, f(c), n - 1)
  }

  function Shift8(c: bv16): (r: bv16) {
    Iterate(Shift1, c, BITS)
  }

  /** The high byte of a register. */
  function Raise(b: Byte): (w: bv16) {
    (b as bv16) << 8
  }

  function Absorb(c: bv16, b: Byte): (r: bv16) {
    Shift8(c ^ Raise(b))
  }

  function Fold<S, B>(f: (S, B) -> S, c: S, data: seq<B>): (r: S)
    decreases |data|
  {
    if data == [] then c else Fold(f, f(c, data[0]), data[1..])
  }

  /** The register after the bytes of `data`, from state c. */
  function Crc(c: bv16, data: seq<Byte>): (r: bv16) {
    Fold(Absorb, c, data)
  }

  /** crc16_ccitt, bit by bit. */
  method Compute(data: seq<Byte>) returns (crc: bv16)
    ensures crc == Crc(INIT, data)
  {
    crc := 0xFFFF;
    for i := 0 to |data|
      invariant Fold(Absorb, crc, data[i..]) == Crc(INIT, data)
    {
      FoldStep(Absorb, crc, data[i..]);
      crc := ShiftByte(crc ^ Raise(data[i]));
      assert data[i..][1..] == data[i + 1..];
    }
  }

  lemma FoldStep<S, B>(f: (S, B) -> S, c: S, data: seq<B>)
    requires data != []
    ensures Fold(f, c, data) == Fold(f, f(c, data[0]), data[1..])
  {
  }

  /** The inner loop: eight steps of the register. */
  method ShiftByte(start: bv16) returns (crc: bv16)
    ensures crc == Shift8(start)
  {
    crc := start;
    for b := 0 to BITS
      invariant Iterate(Shift1, crc, BITS - b) == Shift8(start)
    {
      IterateStep(Shift1, crc, BITS - b);
      if crc & 0x8000 != 0 {
        crc := (crc << 1) ^ 0x1021;
      } else {
        crc := crc << 1;
      }
    }
  }

  lemma IterateStep<T>(f: T -> T, c: T, n: nat)
    requires n > 0
    ensures Iterate(f, c, n) == Iterate(f, f(c), n - 1)
  {
  }

  // ---------------------------------------------------------------------
  // The laws of the register
  // ---------------------------------------------------------------------

  function Xor(x: bv16, y: bv16): (z: bv16) {
    x ^ y
  }

  ghost predicate Linear<T(!new)>(add: (T, T) -> T, f: T -> T) {
    forall x, y {:trigger f(add(x, y))} :: f(add(x, y)) == add(f(x), f(y))
  }

  ghost predicate Injective<T(!new)>(f: T -> T) {
    forall x, y :: f(x) == f(y) ==> x == y
  }

  ghost predicate Register(f: bv16 -> bv16) {
    Linear(Xor, f) && Injective(f) && f(0) == 0 && forall b: Byte :: f(b as bv16) == Raise(b)
  }

  /** One step backwards: the bit shifted out is the lowest bit of the result. */
  function Unshift1(r: bv16): (c: bv16) {
    if r & 1 != 0 then ((r ^ 0x1021) >> 1) | 0x8000 else r >> 1
  }

  lemma UnshiftOdd(c: bv16)
    requires c & 0x8000 != 0
    ensures ((c << 1) ^ 0x1021) & 1 != 0 && ((((c << 1) ^ 0x1021) ^ 0x1021) >> 1) | 0x8000 == c
  {
  }

  lemma UnshiftEven(c: bv16)
    requires c & 0x8000 == 0
    ensures (c << 1) & 1 == 0 && (c << 1) >> 1 == c
  {
  }

  lemma Unshifts(c: bv16)
    ensures Unshift1(Shift1(c)) == c
  {
    var r := Shift1(c);
    if c & 0x8000 != 0 {
      UnshiftOdd(c);
      assert r == (c << 1) ^ 0x1021;
    } else {
      UnshiftEven(c);
      assert r == c << 1;
    }
  }

  function Top(c: bv16): (t: bool) { c & 0x8000 != 0 }

  function Up(c: bv16): (r: bv16) { c << 1 }

  lemma UpXor(x: bv16, y: bv16)
    ensures Up(Xor(x, y)) == Xor(Up(x), Up(y))
  {
  }

  /** The top bit of a sum is set when one of the two is. */
  lemma TopXor(x: bv16, y: bv16)
    ensures Top(Xor(x, y)) == (Top(x) != Top(y))
  {
  }

  lemma XorAssociative(x: bv16, y: bv16, z: bv16)
    ensures Xor(Xor(x, y), z) == Xor(x, Xor(y, z))
  {
  }

  lemma XorCommutative(x: bv16, y: bv16)
    ensures Xor(x, y) == Xor(y, x)
  {
  }

  lemma XorZero(x: bv16)
    ensures Xor(x, 0) == x && Xor(x, x) == 0
  {
  }

  /** Addition in which every element is its own inverse. */
  ghost predicate Additive<T(!new)>(add: (T, T) -> T, zero: T) {
    && (forall x, y, z {:trigger add(add(x, y), z)} :: add(add(x, y), z) == add(x, add(y, z)))
    && (forall x, y {:trigger add(x, y)} :: add(x, y) == add(y, x))
    && (forall x {:trigger add(x, zero)} {:trigger add(x, x)} :: add(x, zero) == x && add(x, x) == zero)
  }

  lemma XorAdditive()
    ensures Additive(Xor, 0)
  {
    forall x, y, z ensures Xor(Xor(x, y), z) == Xor(x, Xor(y, z)) { XorAssociative(x, y, z); }
    forall x, y ensures Xor(x, y) == Xor(y, x) { XorCommutative(x, y); }
    forall x ensures Xor(x, 0) == x && Xor(x, x) == 0 { XorZero(x); }
  }

  lemma Cancels<T(!new)>(add: (T, T) -> T, zero: T, x: T, y: T, k: T)
    requires Additive(add, zero)
    ensures add(add(x, k), y) == add(add(x, y), k) && add(add(x, k), add(y, k)) == add(x, y)
  {
    assert add(add(x, k), y) == add(x, add(k, y)) == add(x, add(y, k)) == add(add(x, y), k);
    assert add(add(x, k), add(y, k)) == add(add(add(x, k), y), k) == add(add(add(x, y), k), k);
    assert add(add(add(x, y), k), k) == add(add(x, y), add(k, k));
  }

  /** The test of a sum is whether the tests differ. */
  ghost predicate Flips<T(!new)>(add: (T, T) -> T, top: T -> bool) {
    forall x, y {:trigger top(add(x, y))} :: top(add(x, y)) == (top(x) != top(y))
  }

  ghost predicate StepsBy<T(!new)>(add: (T, T) -> T, top: T -> bool, up: T -> T, k: T, f: T -> T) {
    forall c :: f(c) == if top(c) then add(up(c), k) else up(c)
  }

  /** A step that adds k exactly when a linear test says so is linear. */
  lemma StepLinear<T(!new)>(add: (T, T) -> T, zero: T, top: T -> bool, up: T -> T, k: T, f: T -> T)
    requires Additive(add, zero) && Linear(add, up) && Flips(add, top) && StepsBy(add, top, up, k, f)
    ensures Linear(add, f)
  {
    forall x, y ensures f(add(x, y)) == add(f(x), f(y)) {
      assert up(add(x, y)) == add(up(x), up(y)) && top(add(x, y)) == (top(x) != top(y));
      Cancels(add, zero, up(x), up(y), k);
      assert add(up(x), add(up(y), k)) == add(add(up(x), up(y)), k);
    }
  }

  lemma Shift1Linear()
    ensures Linear(Xor, Shift1)
  {
    XorAdditive();
    UpLinear();
    TopFlips();
    ShiftSteps();
    StepLinear(Xor, 0, Top, Up, 0x1021, Shift1);
  }

  lemma UpLinear()
    ensures Linear(Xor, Up)
  {
    forall x, y ensures Up(Xor(x, y)) == Xor(Up(x), Up(y)) { UpXor(x, y); }
  }

  lemma TopFlips()
    ensures Flips(Xor, Top)
  {
    forall x, y ensures Top(Xor(x, y)) == (Top(x) != Top(y)) { TopXor(x, y); }
  }

  lemma ShiftSteps()
    ensures StepsBy(Xor, Top, Up, 0x1021, Shift1)
  {
  }

  lemma {:induction false} IterateLinear<T(!new)>(add: (T, T) -> T, f: T -> T, x: T, y: T, n: nat)
    requires Linear(add, f)
    ensures Iterate(f, add(x, y), n) == add(Iterate(f, x, n), Iterate(f, y, n))
    decreases n
  {
    if n > 0 { IterateLinear(add, f, f(x), f(y), n - 1); }
  }

  lemma {:induction false} IterateInjective<T(!new)>(f: T -> T, x: T, y: T, n: nat)
    requires Injective(f) && Iterate(f, x, n) == Iterate(f, y, n)
    ensures x == y
    decreases n
  {
    if n > 0 { IterateInjective(f, f(x), f(y), n - 1); }
  }

  lemma {:induction false} IterateFixed<T>(f: T -> T, c: T, n: nat)
    requires f(c) == c
    ensures Iterate(f, c, n) == c
    decreases n
  {
    if n > 0 { IterateFixed(f, c, n - 1); }
  }

  /** Below the top bit a step is a plain shift. */
  lemma PlainShift(b: Byte)
    ensures var x := b as bv16;
      && Shift1(x) == x << 1 && Shift1(x << 1) == x << 2 && Shift1(x << 2) == x << 3 && Shift1(x << 3) == x << 4
      && Shift1(x << 4) == x << 5 && Shift1(x << 5) == x << 6 && Shift1(x << 6) == x << 7 && Shift1(x << 7) == x << 8
  {
  }

  lemma {:induction false} IteratePath<T>(f: T -> T, path: seq<T>)
    requires path != [] && forall i :: 0 <= i < |path| - 1 ==> f(path[i]) == path[i + 1]
    ensures Iterate(f, path[0], |path| - 1) == path[|path| - 1]
  {
    if |path| > 1 { IteratePath(f, path[1..]); }
  }

  lemma Shift1Laws()
    ensures Linear(Xor, Shift1) && Injective(Shift1)
  {
    Shift1Linear();
    forall x, y | Shift1(x) == Shift1(y) ensures x == y { Unshifts(x); Unshifts(y); }
  }

  /** Iterating a linear, injective step gives a linear, injective one. */
  lemma IterateLaws<T(!new)>(add: (T, T) -> T, f: T -> T, n: nat, g: T -> T)
    requires Linear(add, f) && Injective(f) && forall c :: g(c) == Iterate(f, c, n)
    ensures Linear(add, g) && Injective(g)
  {
    forall x, y ensures g(add(x, y)) == add(g(x), g(y)) { IterateLinear(add, f, x, y, n); }
    forall x, y | g(x) == g(y) ensures x == y { IterateInjective(f, x, y, n); }
  }

  /** Eight steps of the register keep all three laws. */
  lemma Shift8Register()
    ensures Register(Shift8)
  {
    Shift1Laws();
    IterateLaws(Xor, Shift1, BITS, Shift8);
    IterateFixed(Shift1, 0, BITS);
    forall b: Byte ensures Shift8(b as bv16) == Raise(b) { Shift8Low(b); }
  }

  lemma Shift8Low(b: Byte)
    ensures Shift8(b as bv16) == Raise(b)
  {
    var x := b as bv16;
    var path := [x, x << 1, x << 2, x << 3, x << 4, x << 5, x << 6, x << 7, x << 8];
    PlainShift(b);
    IteratePath(Shift1, path);
  }

  // ---------------------------------------------------------------------
  // What follows for byte pairs
  // ---------------------------------------------------------------------

  function Join(a: Byte, b: Byte): (w: bv16) {
    Raise(a) | (b as bv16)
  }

  function High(c: bv16): (b: Byte) { (c >> 8) as bv8 }

  function Low(c: bv16): (b: Byte) { (c & 0xFF) as bv8 }

  lemma JoinParts(c: bv16)
    ensures Join(High(c), Low(c)) == c
  {
  }

  lemma JoinInjective(a: Byte, b: Byte, a': Byte, b': Byte)
    requires Join(a, b) == Join(a', b')
    ensures a == a' && b == b'
  {
  }

  lemma JoinXor(c: bv16, a: Byte, b: Byte)
    ensures Xor(Xor(c, Raise(a)), b as bv16) == Xor(c, Join(a, b))
  {
  }

  lemma XorCancels(c: bv16, x: bv16, y: bv16)
    requires Xor(c, x) == Xor(c, y)
    ensures x == y
  {
  }

  /** Feeding two bytes is two rounds on the state with both bytes laid over it. */
  lemma AbsorbPair(f: bv16 -> bv16, c: bv16, a: Byte, b: Byte)
    requires Register(f)
    ensures f(Xor(f(Xor(c, Raise(a))), Raise(b))) == f(f(Xor(c, Join(a, b))))
  {
    JoinXor(c, a, b);
    assert f(Xor(Xor(c, Raise(a)), b as bv16)) == Xor(f(Xor(c, Raise(a))), f(b as bv16));
  }

  /** What the register's laws give its byte-wise use. */
  ghost predicate Absorber(g: (bv16, Byte) -> bv16) {
    // no byte merges two states
    && (forall c, c', b :: g(c, b) == g(c', b) ==> c == c')
    // from one state, different byte pairs lead to different states
    && (forall c, a, b, a', b' :: g(g(c, a), b) == g(g(c, a'), b') ==> a == a' && b == b')
    // a state goes to zero on its own two bytes, and on no others
    && (forall c, hi, lo :: g(g(c, hi), lo) == 0 <==> c == Join(hi, lo))
  }

  lemma PairInjective(f: bv16 -> bv16, c: bv16, a: Byte, b: Byte, a': Byte, b': Byte)
    requires Register(f) && f(Xor(f(Xor(c, Raise(a))), Raise(b))) == f(Xor(f(Xor(c, Raise(a'))), Raise(b')))
    ensures a == a' && b == b'
  {
    AbsorbPair(f, c, a, b);
    AbsorbPair(f, c, a', b');
    XorCancels(c, Join(a, b), Join(a', b'));
    JoinInjective(a, b, a', b');
  }

  lemma PairToZeroIff(f: bv16 -> bv16, c: bv16, hi: Byte, lo: Byte)
    requires Register(f)
    ensures f(Xor(f(Xor(c, Raise(hi))), Raise(lo))) == 0 <==> c == Join(hi, lo)
  {
    if c == Join(hi, lo) { OwnPairToZero(f, hi, lo); }
    if f(Xor(f(Xor(c, Raise(hi))), Raise(lo))) == 0 {
      JoinParts(c);
      OwnPairToZero(f, High(c), Low(c));
      PairInjective(f, c, hi, lo, High(c), Low(c));
    }
  }

  lemma OwnPairToZero(f: bv16 -> bv16, hi: Byte, lo: Byte)
    requires Register(f)
    ensures f(Xor(f(Xor(Join(hi, lo), Raise(hi))), Raise(lo))) == 0
  {
    AbsorbPair(f, Join(hi, lo), hi, lo);
    XorZero(Join(hi, lo));
  }

  lemma RegisterAbsorbs(f: bv16 -> bv16, g: (bv16, Byte) -> bv16)
    requires Register(f) && forall c, b :: g(c, b) == f(Xor(c, Raise(b)))
    ensures Absorber(g)
  {
    forall c, c', b | g(c, b) == g(c', b) ensures c == c' { XorSame(c, c', Raise(b)); }
    forall c, a, b, a', b' | g(g(c, a), b) == g(g(c, a'), b') ensures a == a' && b == b' {
      PairInjective(f, c, a, b, a', b');
    }
    forall c, hi, lo ensures g(g(c, hi), lo) == 0 <==> c == Join(hi, lo) { PairToZeroIff(f, c, hi, lo); }
  }

  lemma AbsorbLaws()
    ensures Absorber(Absorb)
  {
    Shift8Register();
    RegisterAbsorbs(Shift8, Absorb);
  }

  lemma XorSame(c: bv16, c': bv16, x: bv16)
    requires Xor(c, x) == Xor(c', x)
    ensures c == c'
  {
  }

  // ---------------------------------------------------------------------
  // What follows for messages
  // ---------------------------------------------------------------------

  lemma {:induction false} FoldConcat<S, B>(f: (S, B) -> S, c: S, s: seq<B>, t: seq<B>)
    ensures Fold(f, c, s + t) == Fold(f, Fold(f, c, s), t)
    decreases |s|
  {
    if s == [] {
      assert s + t == t;
    } else {
      FoldConcat(f, f(c, s[0]), s[1..], t);
      assert (s + t)[1..] == s[1..] + t;
    }
  }

  lemma FoldPair<S, B>(f: (S, B) -> S, c: S, a: B, b: B)
    ensures Fold(f, c, [a, b]) == f(f(c, a), b)
  {
    assert [a, b][1..] == [b];
    assert Fold(f, c, [a, b]) == Fold(f, f(c, a), [b]);
  }

  lemma {:induction false} FoldInjective<S(!new), B(!new)>(f: (S, B) -> S, c: S, c': S, data: seq<B>)
    requires forall x, y, b :: f(x, b) == f(y, b) ==> x == y
    requires Fold(f, c, data) == Fold(f, c', data)
    ensures c == c'
    decreases |data|
  {
    if data != [] { FoldInjective(f, f(c, data[0]), f(c', data[0]), data[1..]); }
  }

  lemma FoldSplit<S, B>(f: (S, B) -> S, c: S, s: seq<B>, i: nat)
    requires i + 2 <= |s|
    ensures Fold(f, c, s) == Fold(f, f(f(Fold(f, c, s[..i]), s[i]), s[i + 1]), s[i + 2..])
  {
    FoldConcat(f, c, s[..i], [s[i], s[i + 1]] + s[i + 2..]);
    FoldConcat(f, Fold(f, c, s[..i]), [s[i], s[i + 1]], s[i + 2..]);
    FoldPair(f, Fold(f, c, s[..i]), s[i], s[i + 1]);
    assert s == s[..i] + ([s[i], s[i + 1]] + s[i + 2..]);
  }

  lemma FoldBurst<S(!new), B(!new)>(g: (S, B) -> S, c: S, s: seq<B>, t: seq<B>, i: nat)
    requires forall x, y, b :: g(x, b) == g(y, b) ==> x == y
    requires forall x, a, b, a', b' :: g(g(x, a), b) == g(g(x, a'), b') ==> a == a' && b == b'
    requires |s| == |t| && i + 2 <= |s|
    requires forall k :: 0 <= k < |s| && k != i && k != i + 1 ==> s[k] == t[k]
    ensures Fold(g, c, s) == Fold(g, c, t) ==> s == t
  {
    var pre, post := s[..i], s[i + 2..];
    assert t[..i] == pre && t[i + 2..] == post;
    FoldSplit(g, c, s, i);
    FoldSplit(g, c, t, i);
    var x := Fold(g, c, pre);
    if Fold(g, c, s) == Fold(g, c, t) {
      FoldInjective(g, g(g(x, s[i]), s[i + 1]), g(g(x, t[i]), t[i + 1]), post);
      assert s == t;
    }
  }

  /** Appending two bytes brings the register to zero exactly when they are the checksum, high byte first. */
  lemma ResidueIff(data: seq<Byte>, hi: Byte, lo: Byte)
    ensures Crc(INIT, data + [hi, lo]) == 0 <==> Crc(INIT, data) == Join(hi, lo)
  {
    AbsorbLaws();
    FoldConcat(Absorb, INIT, data, [hi, lo]);
    FoldPair(Absorb, Crc(INIT, data), hi, lo);
  }

  /** An error burst confined to two consecutive bytes always changes the checksum. */
  lemma BurstDetected(s: seq<Byte>, t: seq<Byte>, i: nat)
    requires |s| == |t| && i + 2 <= |s| && s != t
    requires forall k :: 0 <= k < |s| && k != i && k != i + 1 ==> s[k] == t[k]
    ensures Crc(INIT, s) != Crc(INIT, t)
  {
    AbsorbLaws();
    FoldBurst(Absorb, INIT, s, t, i);
  }
}
