/** Counting and modular facts shared by the models. */
module Arith {

  ghost predicate Distinct<T>(s: seq<T>) {
    forall i, j :: 0 <= i < j < |s| ==> s[i] != s[j]
  }

  lemma DistinctConcat<T>(a: seq<T>, b: seq<T>)
    requires Distinct(a) && Distinct(b) && forall x :: x in a ==> x !in b
    ensures Distinct(a + b)
  {
    forall i, j | 0 <= i < j < |a + b| ensures (a + b)[i] != (a + b)[j] {
      if i < |a| <= j { assert a[i] in a && b[j - |a|] in b; }
    }
  }

  /** Distinct members of a set are no more than the set, and as many only when they are all of it. */
  lemma {:induction false} DistinctWithin<T>(s: seq<T>, among: set<T>)
    requires Distinct(s) && forall i :: 0 <= i < |s| ==> s[i] in among
    ensures |s| <= |among|
    ensures |s| == |among| ==> forall x :: x in among ==> x in s
  {
    if s != [] {
      DistinctWithin(s[1..], among - {s[0]});
      if |s| == |among| {
        forall x | x in among ensures x in s {
          if x != s[0] { assert x in s[1..]; }
        }
      }
    }
  }

  /** Whatever follows the first element. */
  lemma TailMembers<T>(s: seq<T>)
    requires s != []
    ensures forall x :: x in s <==> x == s[0] || x in s[1..]
  {
    assert s == [s[0]] + s[1..];
  }

  ghost function Members<T>(s: seq<T>): (m: set<T>) {
    set x | x in s
  }

  /** A sequence has at least as many elements as members. */
  lemma {:induction false} SetWithin<T>(s: seq<T>)
    ensures |Members(s)| <= |s|
  {
    if s != [] {
      SetWithin(s[1..]);
      assert Members(s) == Members(s[1..]) + {s[0]};
    }
  }

  /** The naturals under n. */
  function Below(n: nat): (s: set<nat>)
    ensures |s| == n
    ensures forall x: nat :: x in s <==> x < n
  {
    if n == 0 then {} else Below(n - 1) + {n - 1}
  }

  lemma DistinctBelow(s: seq<nat>, n: nat)
    requires Distinct(s) && forall i :: 0 <= i < |s| ==> s[i] < n
    ensures |s| <= n
    ensures |s| == n ==> forall x: nat :: x < n ==> x in s
  {
    DistinctWithin(s, Below(n));
  }

  lemma MulSign(m: int, k: int)
    requires m > 0
    ensures k >= 1 ==> m * k >= m
    ensures k <= -1 ==> m * k <= -m
  {
  }

  lemma DivModUnique(x: int, m: nat, q: int, r: nat)
    requires m > 0 && r < m && x == m * q + r
    ensures x / m == q && x % m == r
  {
    assert x == m * (x / m) + x % m;
    assert m * (x / m - q) == r - x % m;
    MulSign(m, x / m - q);
  }

  lemma AddMultiple(a: int, k: int, m: nat)
    requires m > 0
    ensures (a + k * m) % m == a % m
    ensures (a + k * m) / m == a / m + k
  {
    assert a + k * m == m * (a / m + k) + a % m;
    DivModUnique(a + k * m, m, a / m + k, a % m);
  }

  lemma ModSame(a: nat, b: nat, m: nat)
    requires m > 0 && b <= a && a % m == b % m
    ensures a == b || a - b >= m
  {
    assert a == m * (a / m) + a % m && b == m * (b / m) + b % m;
    assert a - b == m * (a / m - b / m);
    MulSign(m, a / m - b / m);
  }

  /** Numbers less than m apart agree modulo m only when equal. */
  lemma ModClose(a: nat, b: nat, m: nat)
    requires m > 0 && b <= a < b + m
    ensures a % m == b % m ==> a == b
  {
    if a % m == b % m { ModSame(a, b, m); }
  }

  /** Reducing by a multiple of m first does not change the remainder by m. */
  lemma ModMod(n: nat, w: nat, m: nat)
    requires m > 0 && w > 0 && w % m == 0
    ensures n % w % m == n % m
  {
    assert n == w * (n / w) + n % w && w == m * (w / m);
    assert w * (n / w) == ((w / m) * (n / w)) * m;
    AddMultiple(n % w, (w / m) * (n / w), m);
  }
}
