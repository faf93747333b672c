/** The physical page allocator: one bit per 4096-byte frame, in 64-bit words. */
module Pmm {
  import opened Arith
  import opened Bits

  const WIDTH: nat := 64

  /** Frame p's bit. */
  predicate Test(words: seq<nat>, p: nat) {
    p / 64 < |words| && Bit(words[p / 64], p % 64)
  }

  ghost predicate Words(words: seq<nat>) {
    forall i :: 0 <= i < |words| ==> words[i] < Pow2(WIDTH)
  }

  function SetBit(words: seq<nat>, p: nat): (words': seq<nat>)
    requires p / 64 < |words|
  {
    words[p / 64 := Or(words[p / 64], Pow2(p % 64))]
  }

  function ClearBit(words: seq<nat>, p: nat): (words': seq<nat>)
    requires p / 64 < |words| && Pow2(p % 64) < Pow2(WIDTH)
  {
    words[p / 64 := And(words[p / 64], Not(Pow2(p % 64), WIDTH))]
  }

  lemma SameBit(p: nat, q: nat)
    requires p / 64 == q / 64 && p % 64 == q % 64
    ensures p == q
  {
  }

  /** Setting a frame's bit changes that frame and no other. */
  lemma SetBitAt(words: seq<nat>, p: nat, q: nat)
    requires p / 64 < |words|
    ensures Test(SetBit(words, p), q) <==> q == p || Test(words, q)
  {
    BitOr(words[p / 64], Pow2(p % 64), q % 64);
    BitPow2(p % 64, q % 64);
    if p / 64 == q / 64 && p % 64 == q % 64 { SameBit(p, q); }
  }

  lemma ClearBitAt(words: seq<nat>, p: nat, q: nat)
    requires p / 64 < |words| && Words(words)
    ensures Pow2(p % 64) < Pow2(WIDTH)
    ensures Test(ClearBit(words, p), q) <==> q != p && Test(words, q)
  {
    Pow2Less(p % 64, WIDTH);
    BitAnd(words[p / 64], Not(Pow2(p % 64), WIDTH), q % 64);
    BitNot(Pow2(p % 64), WIDTH, q % 64);
    BitPow2(p % 64, q % 64);
    if p / 64 == q / 64 && p % 64 == q % 64 { SameBit(p, q); }
  }

  lemma SetBitWords(words: seq<nat>, p: nat)
    requires p / 64 < |words| && Words(words)
    ensures Words(SetBit(words, p))
  {
    Pow2Less(p % 64, WIDTH);
    OrBound(words[p / 64], Pow2(p % 64), WIDTH);
  }

  lemma ClearBitWords(words: seq<nat>, p: nat)
    requires p / 64 < |words| && Words(words)
    ensures Pow2(p % 64) < Pow2(WIDTH) && Words(ClearBit(words, p))
  {
    Pow2Less(p % 64, WIDTH);
    AndBound(words[p / 64], Not(Pow2(p % 64), WIDTH));
  }

  /**
   The bitmap says exactly which frames are taken. Reserved frames are, and so do
   the bits past the last frame read.
   */
  ghost predicate Sound(words: seq<nat>, total: nat, reserved: nat, taken: set<nat>) {
    && reserved <= total
    && |words| == (total + 63) / 64
    && Words(words)
    && (forall p {:trigger Test(words, p)} :: 0 <= p < 64 * |words| ==> (Test(words, p) <==> p >= total || p in taken))
    && (forall p :: p in taken ==> 0 <= p < total)
    && (forall p :: 0 <= p < reserved ==> p in taken)
  }

  lemma SetSound(words: seq<nat>, total: nat, reserved: nat, taken: set<nat>, p: nat)
    requires Sound(words, total, reserved, taken) && p < total
    ensures p / 64 < |words| && Sound(SetBit(words, p), total, reserved, taken + {p})
  {
    SetBitWords(words, p);
    forall q | 0 <= q < 64 * |words|
      ensures Test(SetBit(words, p), q) <==> q == p || Test(words, q)
    {
      SetBitAt(words, p, q);
    }
  }

  lemma ClearSound(words: seq<nat>, total: nat, reserved: nat, taken: set<nat>, p: nat)
    requires Sound(words, total, reserved, taken) && reserved <= p < total
    ensures p / 64 < |words| && Pow2(p % 64) < Pow2(WIDTH) && Sound(ClearBit(words, p), total, reserved, taken - {p})
  {
    ClearBitWords(words, p);
    forall q | 0 <= q < 64 * |words|
      ensures Test(ClearBit(words, p), q) <==> q != p && Test(words, q)
    {
      ClearBitAt(words, p, q);
    }
  }

  /** The frames p, p + 1, ..., p + n - 1. */
  ghost function Run(p: nat, n: nat): (s: set<nat>)
    ensures forall q :: q in s <==> p <= q < p + n
  {
    if n == 0 then {} else Run(p, n - 1) + {p + n - 1}
  }

  lemma RunStep(taken: set<nat>, p: nat, n: nat)
    ensures taken + Run(p, n) + {p + n} == taken + Run(p, n + 1) && (p + n !in taken ==> p + n !in taken + Run(p, n))
  {
  }

  /** The physical address of frame p. */
  function FrameAddr(start: nat, p: nat): (a: nat) {
    start + p * 4096
  }

  /**
   The bitmap at start-up: the bits past the last frame are set so that they are
   never handed out, and so are those of the reserved frames.
   */
  method FreshBitmap(total: nat, reserved: nat) returns (words: array<nat>)
    requires reserved <= total
    ensures fresh(words) && Sound(words[..], total, reserved, Below(reserved))
  {
    words := new nat[(total + 63) / 64](_ => 0);
    Pow2Less(total % 64, WIDTH);
    if total % 64 != 0 {
      words[words.Length - 1] := Not(Pow2(total % 64) - 1, WIDTH);
    }
    InitialSound(words[..], total);
    for p := 0 to reserved
      invariant Sound(words[..], total, 0, Below(p))
    {
      SetSound(words[..], total, 0, Below(p), p);
      ghost var was := words[..];
      words[p / 64] := Or(words[p / 64], Pow2(p % 64));
      assert words[..] == SetBit(was, p) && Below(p + 1) == Below(p) + {p};
    }
  }

  class Allocator {
    const bitmap: array<nat>
    const total: nat
    const reserved: nat
    const start: nat
    var used: nat
    /** The frames in use. */
    ghost var taken: set<nat>

    ghost predicate Valid()
      reads this, bitmap
    {
      && 0 < start && start % 4096 == 0
      && Sound(bitmap[..], total, reserved, taken)
      && used == |taken|
    }

    /**
     pmm_init: the frames up to the kernel's end and the bitmap behind it start out set,
     and so do the bits past the last frame.
     */
    constructor (memStart: nat, memSize: nat, kernelEnd: nat)
      requires 0 < memStart <= kernelEnd && memStart % 4096 == 0
      requires ReservedFor(memStart, memSize / 4096, kernelEnd) <= memSize / 4096
      ensures Valid() && fresh(bitmap) && start == memStart && total == memSize / 4096
      ensures reserved == ReservedFor(memStart, total, kernelEnd) && taken == Below(reserved)
      ensures Reserves(memStart, reserved, kernelEnd, 8 * bitmap.Length)
    {
      var pages := memSize / 4096;
      var reservedPages := ReservedFor(memStart, pages, kernelEnd);
      ReservedEnough(memStart, pages, kernelEnd);
      start, total, reserved, used := memStart, pages, reservedPages, reservedPages;
      var words := FreshBitmap(pages, reservedPages);
      bitmap, taken := words, Below(reservedPages);
    }

    /** Mark a free frame, keeping the count. */
    method Take(p: nat)
      requires Valid() && p < total && p !in taken
      modifies bitmap, this`used, this`taken
      ensures Valid() && taken == old(taken) + {p}
    {
      SetSound(bitmap[..], total, reserved, taken, p);
      ghost var was := bitmap[..];
      bitmap[p / 64] := Or(bitmap[p / 64], Pow2(p % 64));
      assert bitmap[..] == SetBit(was, p);
      used, taken := used + 1, taken + {p};
    }

    /** The lowest free frame, or 0 when there is none. */
    method AllocatePage() returns (a: nat, ghost p: nat)
      requires Valid()
      modifies bitmap, this`used, this`taken
      ensures Valid()
      ensures a == 0 <==> old(taken) == Below(total)
      ensures a == 0 ==> taken == old(taken)
      ensures a != 0 ==> a == FrameAddr(start, p) && p < total && taken == old(taken) + {p}
      ensures a != 0 ==> p !in old(taken) && forall q :: 0 <= q < p ==> q in old(taken)
    {
      p := 0;
      for i := 0 to bitmap.Length
        invariant bitmap[..] == old(bitmap[..]) && used == old(used) && taken == old(taken)
        invariant forall q :: 0 <= q < 64 * i && q < total ==> q in taken
      {
        if bitmap[i] == Pow2(WIDTH) - 1 {
          forall q | 64 * i <= q < 64 * (i + 1) && q < total ensures q in taken {
            BitOnes(WIDTH, q % 64);
            assert Test(bitmap[..], q);
          }
          continue;
        }
        for bit := 0 to 64
          invariant bitmap[..] == old(bitmap[..]) && used == old(used) && taken == old(taken)
          invariant forall q :: 0 <= q < 64 * i + bit && q < total ==> q in taken
        {
          var frame := i * 64 + bit;
          if frame >= total {
            return 0, 0;
          }
          if !Test(bitmap[..], frame) {
            Take(frame);
            return FrameAddr(start, frame), frame;
          }
        }
      }
      return 0, 0;
    }

    /** `count` consecutive frames at the lowest place there is room for them, or 0. */
    method AllocatePages(count: nat) returns (a: nat, ghost p: nat)
      requires Valid()
      modifies bitmap, this`used, this`taken
      ensures Valid()
      ensures a == 0 <==> count == 0 || forall q: nat :: q + count <= total ==> !FreeRun(old(taken), q, count)
      ensures a == 0 ==> taken == old(taken)
      ensures a != 0 ==> a == FrameAddr(start, p) && p + count <= total && taken == old(taken) + Run(p, count)
      ensures a != 0 ==> FreeRun(old(taken), p, count) && forall q: nat :: q < p ==> !FreeRun(old(taken), q, count)
    {
      p := 0;
      if count == 0 {
        return 0, 0;
      }
      if count == 1 {
        a, p := AllocatePage();
        SingleRuns(old(taken), total);
        return;
      }
      var found, frame := FindRun(count);
      if !found {
        return 0, 0;
      }
      TakeRun(frame, count);
      return FrameAddr(start, frame), frame;
    }

    /** Scan upwards for `count` consecutive free frames. */
    method FindRun(count: nat) returns (found: bool, frame: nat)
      requires Valid() && count > 0
      ensures found ==> frame + count <= total && FreeRun(taken, frame, count)
      ensures found ==> forall q: nat :: q < frame ==> !FreeRun(taken, q, count)
      ensures !found ==> forall q: nat :: q + count <= total ==> !FreeRun(taken, q, count)
    {
      var runStart, runLength := 0, 0;
      NoRunInReserved(taken, reserved, count);
      for pfn := reserved to total
        invariant runLength < count && (runLength > 0 ==> runStart + runLength == pfn)
        invariant Scanned(taken, pfn, runLength, count)
      {
        if !Test(bitmap[..], pfn) {
          if runLength == 0 {
            runStart := pfn;
          }
          ScanFree(taken, pfn, runLength, count);
          runLength := runLength + 1;
          if runLength == count {
            return true, runStart;
          }
        } else {
          ScanTaken(taken, pfn, runLength, count);
          runLength := 0;
        }
      }
      return false, 0;
    }

    method TakeRun(p: nat, n: nat)
      requires Valid() && p + n <= total && FreeRun(taken, p, n)
      modifies bitmap, this`used, this`taken
      ensures Valid() && taken == old(taken) + Run(p, n)
    {
      ghost var was := taken;
      for i := 0 to n
        invariant Valid() && taken == was + Run(p, i)
      {
        RunStep(was, p, i);
        assert p + i !in was;
        Take(p + i);
        assert taken == was + Run(p, i + 1);
      }
    }

    /** Releases a frame past the reserved ones; any other address leaves everything as it was. */
    method FreePage(a: nat)
      requires Valid()
      modifies bitmap, this`used, this`taken
      ensures Valid()
      ensures forall p :: reserved <= p < total && a == FrameAddr(start, p) ==> taken == old(taken) - {p}
      ensures (forall p :: reserved <= p < total ==> a != FrameAddr(start, p)) ==> taken == old(taken)
    {
      if a < start || a >= start + total * 4096 {
        return;
      }
      if a % 4096 != 0 {
        return;
      }
      var frame := (a - start) / 4096;
      assert a == FrameAddr(start, frame);
      if frame < reserved {
        return;
      }
      if !Test(bitmap[..], frame) {
        return;
      }
      Release(frame);
    }

    method Release(frame: nat)
      requires Valid() && reserved <= frame < total && frame in taken
      modifies bitmap, this`used, this`taken
      ensures Valid() && taken == old(taken) - {frame}
    {
      ClearSound(bitmap[..], total, reserved, taken, frame);
      ghost var was := bitmap[..];
      bitmap[frame / 64] := And(bitmap[frame / 64], Not(Pow2(frame % 64), WIDTH));
      assert bitmap[..] == ClearBit(was, frame);
      used, taken := used - 1, taken - {frame};
    }

    /** Releases the frames of n pages from an address on, those that can be released. */
    method FreePages(a: nat, n: nat, ghost p: nat)
      requires Valid()
      modifies bitmap, this`used, this`taken
      ensures Valid() && taken == old(taken) - Spanned(start, total, reserved, a, n)
      ensures a == FrameAddr(start, p) && reserved <= p && p + n <= total ==> taken == old(taken) - Run(p, n)
    {
      for i := 0 to n
        invariant Valid() && taken == old(taken) - Spanned(start, total, reserved, a, i)
      {
        ghost var was := taken;
        FreePage(a + i * 4096);
        SpannedNext(start, total, reserved, a, i, old(taken), was, taken);
      }
      if a == FrameAddr(start, p) && reserved <= p && p + n <= total { SpannedRun(start, total, reserved, p, n); }
    }
  }

  /** The checks of pmm_free_page on an address, in a region of so many bytes, before it looks at the bitmap. */
  predicate Passes(memStart: nat, bytes: nat, reserved: nat, a: nat) {
    memStart <= a < memStart + bytes && a % 4096 == 0 && (a - memStart) / 4096 >= reserved
  }

  /**
   They let through the addresses of frames and no others exactly when the region is made
   of whole pages; else the part page at its end passes for a frame the bitmap does not have.
   */
  lemma PassesIff(memStart: nat, bytes: nat, reserved: nat)
    requires memStart % 4096 == 0 && reserved <= bytes / 4096
    ensures (forall a: nat :: Passes(memStart, bytes, reserved, a) ==> a < FrameAddr(memStart, bytes / 4096))
      <==> bytes % 4096 == 0
  {
    var n := bytes / 4096;
    assert bytes == n * 4096 + bytes % 4096;
    if bytes % 4096 != 0 { PartPagePasses(memStart, bytes, reserved); }
  }

  lemma PartPagePasses(memStart: nat, bytes: nat, reserved: nat)
    requires memStart % 4096 == 0 && reserved <= bytes / 4096 && bytes % 4096 != 0
    ensures Passes(memStart, bytes, reserved, FrameAddr(memStart, bytes / 4096))
  {
    var n := bytes / 4096;
    assert bytes == n * 4096 + bytes % 4096;
    assert (memStart + n * 4096) % 4096 == 0 && (n * 4096) / 4096 == n;
  }

  function PageUp(a: nat): (r: nat)
    ensures a <= r < a + 4096 && r % 4096 == 0
  {
    (a + 4095) / 4096 * 4096
  }

  /** Frames up to the end of the bitmap, which starts at the first page behind the kernel. */
  function ReservedFor(memStart: nat, pages: nat, kernelEnd: nat): (n: nat)
    requires memStart <= kernelEnd
  {
    (PageUp(PageUp(kernelEnd) + 8 * ((pages + 63) / 64)) - memStart) / 4096
  }

  /** n frames cover the kernel and a bitmap of so many bytes behind it, and no fewer do. */
  ghost predicate Reserves(memStart: nat, n: nat, kernelEnd: nat, bytes: nat) {
    var end := PageUp(kernelEnd) + bytes; end <= memStart + 4096 * n < end + 4096
  }

  lemma ReservedEnough(memStart: nat, pages: nat, kernelEnd: nat)
    requires memStart <= kernelEnd && memStart % 4096 == 0
    ensures Reserves(memStart, ReservedFor(memStart, pages, kernelEnd), kernelEnd, 8 * ((pages + 63) / 64))
  {
    var end := PageUp(kernelEnd) + 8 * ((pages + 63) / 64);
    Whole(PageUp(end), memStart);
  }

  lemma Whole(a: nat, b: nat)
    requires b <= a && a % 4096 == 0 && b % 4096 == 0
    ensures b + 4096 * ((a - b) / 4096) == a
  {
    var i, j := a / 4096, b / 4096;
    assert a - b == 4096 * (i - j);
  }

  /** The frames past the reserved ones that start one of n pages from an address on. */
  ghost function Spanned(start: nat, total: nat, reserved: nat, a: nat, n: nat): (r: set<nat>) {
    set p: nat | reserved <= p < total && StartsIn(FrameAddr(start, p), a, n)
  }

  ghost predicate StartsIn(f: nat, a: nat, n: nat) { exists i :: 0 <= i < n && f == a + i * 4096 }

  /** One page more: the frame at its address, if it is one. */
  lemma SpannedMore(start: nat, total: nat, reserved: nat, a: nat, n: nat)
    ensures forall p: nat :: p in Spanned(start, total, reserved, a, n + 1) <==>
      p in Spanned(start, total, reserved, a, n) || (reserved <= p < total && FrameAddr(start, p) == a + n * 4096)
  {
    forall p: nat ensures StartsIn(FrameAddr(start, p), a, n + 1) <==>
      StartsIn(FrameAddr(start, p), a, n) || FrameAddr(start, p) == a + n * 4096
    {
      if StartsIn(FrameAddr(start, p), a, n + 1) {
        var i :| 0 <= i < n + 1 && FrameAddr(start, p) == a + i * 4096;
        assert i == n || StartsIn(FrameAddr(start, p), a, n);
      }
      if StartsIn(FrameAddr(start, p), a, n) {
        var i :| 0 <= i < n && FrameAddr(start, p) == a + i * 4096;
        assert i < n + 1;
      }
    }
  }

  /** One page more released. */
  lemma SpannedNext(start: nat, total: nat, reserved: nat, a: nat, n: nat, all: set<nat>, was: set<nat>, now: set<nat>)
    requires was == all - Spanned(start, total, reserved, a, n)
    requires forall p :: reserved <= p < total && a + n * 4096 == FrameAddr(start, p) ==> now == was - {p}
    requires (forall p :: reserved <= p < total ==> a + n * 4096 != FrameAddr(start, p)) ==> now == was
    ensures now == all - Spanned(start, total, reserved, a, n + 1)
  {
    SpannedMore(start, total, reserved, a, n);
    if p :| reserved <= p < total && a + n * 4096 == FrameAddr(start, p) {
      assert forall q: nat :: q in Spanned(start, total, reserved, a, n + 1) <==>
        q in Spanned(start, total, reserved, a, n) || q == p;
    }
  }

  lemma SpannedRun(start: nat, total: nat, reserved: nat, p: nat, n: nat)
    requires reserved <= p && p + n <= total
    ensures Spanned(start, total, reserved, FrameAddr(start, p), n) == Run(p, n)
  {
    var a := FrameAddr(start, p);
    forall q: nat ensures q in Spanned(start, total, reserved, a, n) <==> q in Run(p, n) {
      if q in Run(p, n) { assert FrameAddr(start, q) == a + (q - p) * 4096; }
    }
  }

  /** Frames p to p + n - 1 are all free. */
  ghost predicate FreeRun(taken: set<nat>, p: nat, n: nat) {
    forall q :: p <= q < p + n ==> q !in taken
  }

  lemma SingleRuns(taken: set<nat>, total: nat)
    ensures forall q: nat :: FreeRun(taken, q, 1) <==> q !in taken
  {
  }

  /** The scan has reached `frame` with `length` free frames just behind it and no run of `count` yet. */
  ghost predicate Scanned(taken: set<nat>, frame: nat, length: nat, count: nat) {
    && length <= frame && FreeRun(taken, frame - length, length)
    && (frame == length || frame - length - 1 in taken)
    && forall q: nat :: q + count <= frame ==> !FreeRun(taken, q, count)
  }

  lemma NoRunInReserved(taken: set<nat>, reserved: nat, count: nat)
    requires count > 0 && forall p :: 0 <= p < reserved ==> p in taken
    ensures Scanned(taken, reserved, 0, count)
  {
    forall q: nat | q + count <= reserved ensures !FreeRun(taken, q, count) { assert q in taken; }
  }

  lemma ScanFree(taken: set<nat>, frame: nat, length: nat, count: nat)
    requires Scanned(taken, frame, length, count) && length < count && frame !in taken
    ensures FreeRun(taken, frame - length, length + 1)
    ensures length + 1 < count ==> Scanned(taken, frame + 1, length + 1, count)
    ensures forall q: nat :: q < frame - length ==> !FreeRun(taken, q, count)
  {
    forall q: nat | q < frame - length ensures !FreeRun(taken, q, count) {
      if q + count > frame { assert frame - length - 1 in taken; }
    }
  }

  lemma ScanTaken(taken: set<nat>, frame: nat, length: nat, count: nat)
    requires Scanned(taken, frame, length, count) && count > 0 && frame in taken
    ensures Scanned(taken, frame + 1, 0, count)
  {
    forall q: nat | q + count <= frame + 1 ensures !FreeRun(taken, q, count) {
      if q + count == frame + 1 { assert q <= frame < q + count; }
    }
  }

  /** A fresh bitmap: only the bits past the last frame are set. */
  lemma InitialSound(words: seq<nat>, total: nat)
    requires |words| == (total + 63) / 64 && Pow2(total % 64) - 1 < Pow2(WIDTH)
    requires forall i :: 0 <= i < |words| ==> words[i] == InitialWord(total, i)
    ensures Sound(words, total, 0, {})
  {
    forall p | 0 <= p < 64 * |words| ensures Test(words, p) <==> p >= total { InitialBit(total, p); }
  }

  function InitialWord(total: nat, i: nat): (w: nat)
    requires Pow2(total % 64) - 1 < Pow2(WIDTH)
  {
    if i == total / 64 && total % 64 != 0 then Not(Pow2(total % 64) - 1, WIDTH) else 0
  }

  lemma InitialBit(total: nat, p: nat)
    requires Pow2(total % 64) - 1 < Pow2(WIDTH) && p < 64 * ((total + 63) / 64)
    ensures Bit(InitialWord(total, p / 64), p % 64) <==> p >= total
  {
    var k, r := p % 64, total % 64;
    if p / 64 == total / 64 && r != 0 {
      TailBit(r, k);
    } else {
      BitZero(k);
      BeforeTail(total, p);
    }
  }

  lemma BeforeTail(total: nat, p: nat)
    requires p < 64 * ((total + 63) / 64) && (p / 64 != total / 64 || total % 64 == 0)
    ensures p < total
  {
  }

  lemma TailBit(r: nat, k: nat)
    requires r < WIDTH && k < WIDTH && Pow2(r) - 1 < Pow2(WIDTH)
    ensures Bit(Not(Pow2(r) - 1, WIDTH), k) <==> k >= r
  {
    BitNot(Pow2(r) - 1, WIDTH, k);
    if k < r { BitOnes(r, k); } else { BitBeyond(Pow2(r) - 1, r, k); }
  }
}
