/** Numbers as little-endian bytes. */
module Words {
  import opened Common

  /** A little-endian number. */
  function Number(b: seq<Octet>): (n: nat)
    ensures n < Limit(|b|)
  {
    if b == [] then 0 else Shift(b[0], Number(b[1..]))
  }

  function Shift(low: nat, high: nat): (n: nat) { low + 256 * high }

  function Limit(k: nat): (n: nat)
    ensures n > 0
  {
    if k == 0 then 1 else 256 * Limit(k - 1)
  }

  /** The k bytes of a number, the lowest first. */
  function Bytes(n: nat, k: nat): (b: seq<Octet>)
    ensures |b| == k
  {
    if k == 0 then [] else [n % 256] + Bytes(n / 256, k - 1)
  }

  lemma {:induction false} NumberBytes(n: nat, k: nat)
    requires n < Limit(k)
    ensures Number(Bytes(n, k)) == n
  {
    if k > 0 { NumberBytes(n / 256, k - 1); }
  }

  lemma Limits()
    ensures Limit(2) == 0x1_0000 && Limit(4) == 0x1_0000_0000 && Limit(8) == 0x1_0000_0000_0000_0000
  {
    assert Limit(1) == 256 && Limit(3) == 256 * Limit(2);
    assert Limit(5) == 256 * Limit(4) && Limit(6) == 256 * Limit(5) && Limit(7) == 256 * Limit(6);
  }
}
