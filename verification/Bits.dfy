/** Bitwise operations on unsigned words, as functions on naturals. */
module Bits {
  import opened Arith

  function Pow2(k: nat): (p: nat)
    ensures p > 0
  {
    if k == 0 then 1 else 2 * Pow2(k - 1)
  }

  /** Bit k of w: (w >> k) & 1. */
  predicate Bit(w: nat, k: nat) {
    if k == 0 then w % 2 == 1 else Bit(w / 2, k - 1)
  }

  function Or(a: nat, b: nat): (c: nat) {
    if a == 0 then b else if b == 0 then a
    else 2 * Or(a / 2, b / 2) + if a % 2 == 1 || b % 2 == 1 then 1 else 0
  }

  function And(a: nat, b: nat): (c: nat) {
    if a == 0 || b == 0 then 0
    else 2 * And(a / 2, b / 2) + if a % 2 == 1 && b % 2 == 1 then 1 else 0
  }

  /** The complement of w in n bits. */
  function Not(w: nat, n: nat): (c: nat)
    requires w < Pow2(n)
  {
    Pow2(n) - 1 - w
  }

  lemma {:induction false} BitZero(k: nat)
    ensures !Bit(0, k)
  {
    if k > 0 { BitZero(k - 1); }
  }

  lemma AndStep(a: nat, b: nat)
    ensures And(a, b) / 2 == And(a / 2, b / 2) && (And(a, b) % 2 == 1 <==> a % 2 == 1 && b % 2 == 1)
  {
  }

  lemma OrStep(a: nat, b: nat)
    ensures Or(a, b) / 2 == Or(a / 2, b / 2) && (Or(a, b) % 2 == 1 <==> a % 2 == 1 || b % 2 == 1)
  {
  }

  lemma {:induction false} BitOr(a: nat, b: nat, k: nat)
    ensures Bit(Or(a, b), k) <==> Bit(a, k) || Bit(b, k)
  {
    OrStep(a, b);
    if k > 0 { BitOr(a / 2, b / 2, k - 1); }
  }

  lemma {:induction false} BitAnd(a: nat, b: nat, k: nat)
    ensures Bit(And(a, b), k) <==> Bit(a, k) && Bit(b, k)
  {
    AndStep(a, b);
    if k > 0 { BitAnd(a / 2, b / 2, k - 1); }
  }

  lemma {:induction false} BitPow2(j: nat, k: nat)
    ensures Bit(Pow2(j), k) <==> j == k
  {
    if j == 0 {
      if k > 0 { BitZero(k - 1); }
    } else if k > 0 {
      assert Pow2(j) / 2 == Pow2(j - 1);
      BitPow2(j - 1, k - 1);
    }
  }

  lemma {:induction false} BitNot(w: nat, n: nat, k: nat)
    requires w < Pow2(n) && k < n
    ensures Bit(Not(w, n), k) <==> !Bit(w, k)
  {
    if k > 0 {
      assert Not(w, n) / 2 == Not(w / 2, n - 1);
      BitNot(w / 2, n - 1, k - 1);
    }
  }

  lemma {:induction false} OrBound(a: nat, b: nat, n: nat)
    requires a < Pow2(n) && b < Pow2(n)
    ensures Or(a, b) < Pow2(n)
  {
    if a != 0 && b != 0 { OrBound(a / 2, b / 2, n - 1); }
  }

  lemma {:induction false} AndBound(a: nat, b: nat)
    ensures And(a, b) <= a
  {
    if a != 0 && b != 0 { AndBound(a / 2, b / 2); }
  }

  /** A word has no bits past its width. */
  lemma {:induction false} BitBeyond(w: nat, n: nat, k: nat)
    requires w < Pow2(n) && n <= k
    ensures !Bit(w, k)
  {
    if n == 0 { BitZero(k); } else { BitBeyond(w / 2, n - 1, k - 1); }
  }

  /** Words of n bits that agree in every bit are equal. */
  lemma {:induction false} SameBits(a: nat, b: nat, n: nat)
    requires a < Pow2(n) && b < Pow2(n) && forall k: nat :: k < n ==> (Bit(a, k) <==> Bit(b, k))
    ensures a == b
  {
    if n > 0 {
      assert Bit(a, 0) <==> Bit(b, 0);
      forall k: nat | k < n - 1 ensures Bit(a / 2, k) <==> Bit(b / 2, k) {
        assert Bit(a, k + 1) <==> Bit(b, k + 1);
      }
      SameBits(a / 2, b / 2, n - 1);
    }
  }

  lemma {:induction false} BitOnes(n: nat, k: nat)
    requires k < n
    ensures Bit(Pow2(n) - 1, k)
  {
    if k > 0 {
      assert (Pow2(n) - 1) / 2 == Pow2(n - 1) - 1;
      BitOnes(n - 1, k - 1);
    }
  }

  /** A word of n bits that are all set is the largest one. */
  lemma {:induction false} AllOnes(w: nat, n: nat)
    requires w < Pow2(n) && forall k :: 0 <= k < n ==> Bit(w, k)
    ensures w == Pow2(n) - 1
  {
    if n > 0 {
      assert Bit(w, 0);
      forall k | 0 <= k < n - 1 ensures Bit(w / 2, k) { assert Bit(w, k + 1); }
      AllOnes(w / 2, n - 1);
    }
  }

  /** Words with disjoint bits: an aligned number and one below its alignment. */
  lemma {:induction false} OrDisjoint(a: nat, b: nat, k: nat)
    requires b < Pow2(k)
    ensures Or(a * Pow2(k), b) == a * Pow2(k) + b
  {
    if k > 0 && a != 0 && b != 0 {
      assert a * Pow2(k) == 2 * (a * Pow2(k - 1));
      assert a * Pow2(k) > 0;
      OrDisjoint(a, b / 2, k - 1);
      assert (a * Pow2(k)) / 2 == a * Pow2(k - 1) && (a * Pow2(k)) % 2 == 0;
    }
  }

  lemma AndLowStep(a: nat, p: nat, mask: nat)
    requires p > 0 && mask == 2 * p - 1 && And(a / 2, p - 1) == a / 2 % p
    ensures And(a, mask) == a % (2 * p)
  {
    AndOdd(a, p - 1);
    ModHalf(a, p);
  }

  /** Masking the low n bits off a word. */
  lemma {:induction false} AndLow(a: nat, n: nat)
    ensures And(a, Pow2(n) - 1) == a % Pow2(n)
  {
    if n > 0 {
      var p := Pow2(n - 1);
      AndLow(a / 2, n - 1);
      AndLowStep(a, p, Pow2(n) - 1);
    }
  }

  lemma AndOdd(a: nat, m: nat)
    ensures And(a, 2 * m + 1) == 2 * And(a / 2, m) + a % 2
  {
    AndStep(a, 2 * m + 1);
    assert (2 * m + 1) / 2 == m && (2 * m + 1) % 2 == 1;
  }

  lemma AndEven(a: nat, m: nat)
    ensures And(a, 2 * m) == 2 * And(a / 2, m)
  {
    AndStep(a, 2 * m);
  }

  lemma ModHalf(a: nat, m: nat)
    requires m > 0
    ensures a % (2 * m) == 2 * (a / 2 % m) + a % 2
  {
    var q, r := a / 2 / m, a / 2 % m;
    assert a == 2 * (a / 2) + a % 2 && a / 2 == m * q + r;
    assert a == (2 * m) * q + (2 * r + a % 2);
    DivModUnique(a, 2 * m, q, 2 * r + a % 2);
  }

  lemma {:induction false} Pow2Less(j: nat, k: nat)
    requires j < k
    ensures Pow2(j) < Pow2(k)
    decreases k
  {
    if j < k - 1 { Pow2Less(j, k - 1); }
  }

  /** The bits of a number put together from a high and a low part. */
  lemma {:induction false} BitSplit(high: nat, low: nat, n: nat, k: nat)
    requires low < Pow2(n)
    ensures Bit(high * Pow2(n) + low, k) <==> if k < n then Bit(low, k) else Bit(high, k - n)
    decreases n
  {
    if n > 0 {
      var w := high * Pow2(n) + low;
      HalfSplit(high, low, n, w);
      if k > 0 { BitSplit(high, low / 2, n - 1, k - 1); }
    }
  }

  lemma HalfSplit(high: nat, low: nat, n: nat, w: nat)
    requires n > 0 && low < Pow2(n) && w == high * Pow2(n) + low
    ensures w % 2 == low % 2 && w / 2 == high * Pow2(n - 1) + low / 2 && low / 2 < Pow2(n - 1)
  {
    var m := high * Pow2(n - 1);
    assert high * Pow2(n) == 2 * m;
  }

  /** The bits of a mask from lo to hi - 1. */
  lemma BitMid(lo: nat, hi: nat, k: nat)
    requires lo <= hi
    ensures Pow2(lo) <= Pow2(hi) && (Bit(Pow2(hi) - Pow2(lo), k) <==> lo <= k < hi)
  {
    var ones := Pow2(hi - lo) - 1;
    MidIs(lo, hi, ones);
    BitSplit(ones, 0, lo, k);
    if k < lo {
      BitZero(k);
    } else if k < hi {
      BitOnes(hi - lo, k - lo);
    } else {
      BitBeyond(ones, hi - lo, k - lo);
    }
  }

  lemma {:induction false} MidIs(lo: nat, hi: nat, ones: nat)
    requires lo <= hi && ones == Pow2(hi - lo) - 1
    ensures Pow2(hi) == Pow2(lo) + ones * Pow2(lo)
    decreases lo
  {
    if lo > 0 {
      MidIs(lo - 1, hi - 1, ones);
      Twice(ones, Pow2(lo - 1), Pow2(lo));
    }
  }

  lemma Twice(a: nat, b: nat, c: nat)
    requires c == 2 * b
    ensures a * c == 2 * (a * b)
  {
  }

  lemma LowThree(w: nat)
    ensures (Bit(w, 0) <==> w % 2 == 1) && (Bit(w, 1) <==> w / 2 % 2 == 1) && (Bit(w, 2) <==> w / 4 % 2 == 1)
  {
    assert Bit(w, 1) <==> Bit(w / 2, 0);
    assert Bit(w, 2) <==> Bit(w / 2, 1);
    assert Bit(w / 2, 1) <==> Bit(w / 2 / 2, 0);
    assert w / 2 / 2 == w / 4;
  }
}
