/** Which signal is delivered: pending and blocked masks of 32 bits, scanned from signal 1 up. */
module SignalMasks {
  import opened Bits

  const WIDTH: nat := 32
  const SIGKILL: nat := 9
  const SIG_DFL: nat := 0
  const SIG_IGN: nat := 1

  ghost predicate Mask(w: nat) { w < Pow2(WIDTH) }

  /** Signal n is pending and not blocked. */
  ghost predicate Ready(pending: nat, blocked: nat, n: nat) { Bit(pending, n) && !Bit(blocked, n) }

  /** What to do on the way back to user mode. */
  datatype Choice = Nothing | Kill(sig: nat) | Handle(sig: nat, handler: nat)

  /** Signal n would be passed over: not ready, or ready and ignored. */
  ghost predicate PassedOver(pending: nat, blocked: nat, handlers: seq<nat>, n: nat)
    requires |handlers| == 32 && n < 32
  {
    !Ready(pending, blocked, n) || (n != 9 && handlers[n] == 1)
  }

  /** The choice is the lowest ready signal that is not ignored; SIGKILL cannot be ignored. */
  ghost predicate Chosen(pending: nat, blocked: nat, handlers: seq<nat>, c: Choice)
    requires |handlers| == 32
  {
    match c
    case Nothing => forall n :: 1 <= n < 32 ==> PassedOver(pending, blocked, handlers, n)
    case Kill(sig) =>
      && 1 <= sig < 32 && Ready(pending, blocked, sig) && (sig == 9 || handlers[sig] == 0)
      && forall n :: 1 <= n < sig ==> PassedOver(pending, blocked, handlers, n)
    case Handle(sig, handler) =>
      && 1 <= sig < 32 && Ready(pending, blocked, sig) && sig != 9 && handler == handlers[sig] && handler > 1
      && forall n :: 1 <= n < sig ==> PassedOver(pending, blocked, handlers, n)
  }

  /** Which signals have been dealt with: the ready ones up to the choice. */
  ghost predicate Dropped(pending: nat, blocked: nat, c: Choice, n: nat) {
    n >= 1 && Ready(pending, blocked, n) && (c.Nothing? || n <= c.sig)
  }

  /** Clear bit n. */
  function Clear(w: nat, n: nat): (w': nat)
    requires Mask(w) && n < 32
  {
    Pow2Under(n);
    And(w, Not(Pow2(n), WIDTH))
  }

  lemma Pow2Under(n: nat)
    requires n < 32
    ensures Pow2(n) < Pow2(WIDTH)
  {
    Pow2Less(n, WIDTH);
  }

  lemma ClearIs(w: nat, n: nat)
    requires Mask(w) && n < 32
    ensures Mask(Clear(w, n)) && forall k: nat :: k < 32 ==> (Bit(Clear(w, n), k) <==> Bit(w, k) && k != n)
  {
    Pow2Under(n);
    AndBound(w, Not(Pow2(n), WIDTH));
    forall k: nat | k < 32 ensures Bit(Clear(w, n), k) <==> Bit(w, k) && k != n {
      BitAnd(w, Not(Pow2(n), WIDTH), k);
      BitNot(Pow2(n), WIDTH, k);
      BitPow2(n, k);
    }
  }

  /** The inner loop: the lowest signal that is ready, 0 for none. */
  method Lowest(pending: nat, blocked: nat) returns (sig: nat)
    requires Mask(pending) && Mask(blocked)
    ensures sig < 32 && (sig != 0 ==> Ready(pending, blocked, sig))
    ensures forall n :: 1 <= n < (if sig == 0 then 32 else sig) ==> !Ready(pending, blocked, n)
  {
    var ready := And(pending, Not(blocked, WIDTH));
    for n := 1 to 32
      invariant forall k :: 1 <= k < n ==> !Ready(pending, blocked, k)
    {
      BitAnd(pending, Not(blocked, WIDTH), n);
      BitNot(blocked, WIDTH, n);
      if Bit(ready, n) {
        return n;
      }
    }
    return 0;
  }

  /** signal_check_and_deliver's choice, and the pending mask it leaves. */
  method Choose(pending: nat, blocked: nat, handlers: seq<nat>) returns (c: Choice, pending': nat)
    requires Mask(pending) && Mask(blocked) && |handlers| == 32
    ensures Chosen(pending, blocked, handlers, c) && Mask(pending')
    ensures forall n: nat :: n < 32 ==> (Bit(pending', n) <==> Bit(pending, n) && !Dropped(pending, blocked, c, n))
  {
    pending' := pending;
    ghost var low := 1;
    while true
      invariant Mask(pending') && 1 <= low <= 32
      invariant forall n :: 1 <= n < low ==> PassedOver(pending, blocked, handlers, n)
      invariant forall n: nat :: n < 32 ==>
        (Bit(pending', n) <==> Bit(pending, n) && !(1 <= n < low && Ready(pending, blocked, n)))
      decreases 32 - low
    {
      var sig := Lowest(pending', blocked);
      if sig == 0 {
        NoneReady(pending, pending', blocked, handlers, low);
        return Nothing, pending';
      }
      FoundAbove(pending, pending', blocked, low, sig);
      ClearIs(pending', sig);
      pending' := Clear(pending', sig);
      if sig == SIGKILL {
        return Kill(sig), pending';
      }
      if handlers[sig] == SIG_IGN {
        low := sig + 1;
        continue;
      }
      if handlers[sig] == SIG_DFL {
        return Kill(sig), pending';
      }
      return Handle(sig, handlers[sig]), pending';
    }
  }

  lemma NoneReady(pending: nat, pending': nat, blocked: nat, handlers: seq<nat>, low: nat)
    requires |handlers| == 32 && 1 <= low <= 32 && forall n :: 1 <= n < 32 ==> !Ready(pending', blocked, n)
    requires forall n :: 1 <= n < low ==> PassedOver(pending, blocked, handlers, n)
    requires forall n: nat :: n < 32 ==>
      (Bit(pending', n) <==> Bit(pending, n) && !(1 <= n < low && Ready(pending, blocked, n)))
    ensures Chosen(pending, blocked, handlers, Nothing)
    ensures forall n: nat :: n < 32 ==>
      (Bit(pending', n) <==> Bit(pending, n) && !Dropped(pending, blocked, Nothing, n))
  {
    forall n: nat | 1 <= n < 32 && n >= low ensures !Ready(pending, blocked, n) {
      assert !Ready(pending', blocked, n);
    }
  }

  lemma FoundAbove(pending: nat, pending': nat, blocked: nat, low: nat, sig: nat)
    requires 1 <= low <= 32 && 1 <= sig < 32 && Ready(pending', blocked, sig)
    requires forall n :: 1 <= n < sig ==> !Ready(pending', blocked, n)
    requires forall n: nat :: n < 32 ==>
      (Bit(pending', n) <==> Bit(pending, n) && !(1 <= n < low && Ready(pending, blocked, n)))
    ensures low <= sig && Ready(pending, blocked, sig) && forall n :: low <= n < sig ==> !Ready(pending, blocked, n)
  {
    forall n | low <= n < sig ensures !Ready(pending, blocked, n) {
      assert !Ready(pending', blocked, n);
    }
  }
}
