/**
 Signal delivery: the interrupted context is saved in a frame on the user stack, the
 task enters its handler, and sigreturn restores the context from the frame.
 */
module Signal {

  const TOP: nat := 0x80_0000
  const TRAMPOLINE: nat := 0x30_0000
  /** Pages a stack may grow by. */
  const MAX_GROWN: nat := 60
  /** Words in a signal frame. */
  const FRAME: nat := 35
  const WORD: nat := 0x1_0000_0000_0000_0000

  /** What an exception saves of the interrupted task. */
  datatype Context = Context(regs: seq<nat>, pc: nat, pstate: nat, sp: nat)

  /** User memory by 64-bit word; a word never written reads as zero. */
  type Memory = map<nat, nat>

  function Load(mem: Memory, a: nat): (v: nat) { if a in mem then mem[a] else 0 }

  function StoreAll(mem: Memory, a: nat, words: seq<nat>): (mem': Memory)
    decreases |words|
  {
    if words == [] then mem else StoreAll(mem[a := words[0]], a + 8, words[1..])
  }

  function LoadAll(mem: Memory, a: nat, n: nat): (words: seq<nat>)
    ensures |words| == n
    decreases n
  {
    if n == 0 then [] else [Load(mem, a)] + LoadAll(mem, a + 8, n - 1)
  }

  lemma {:induction false} StoreFrame(mem: Memory, a: nat, words: seq<nat>, b: nat)
    requires b < a || a + 8 * |words| <= b
    ensures Load(StoreAll(mem, a, words), b) == Load(mem, b)
    decreases |words|
  {
    if words != [] { StoreFrame(mem[a := words[0]], a + 8, words[1..], b); }
  }

  lemma {:induction false} LoadStored(mem: Memory, a: nat, words: seq<nat>)
    ensures LoadAll(StoreAll(mem, a, words), a, |words|) == words
    decreases |words|
  {
    if words != [] {
      LoadStored(mem[a := words[0]], a + 8, words[1..]);
      StoreFrame(mem[a := words[0]], a + 8, words[1..], a);
    }
  }

  lemma {:induction false} LoadSame(mem: Memory, mem': Memory, a: nat, n: nat)
    requires forall b: nat :: a <= b < a + 8 * n ==> Load(mem', b) == Load(mem, b)
    ensures LoadAll(mem', a, n) == LoadAll(mem, a, n)
    decreases n
  {
    if n > 0 { LoadSame(mem, mem', a + 8, n - 1); }
  }

  lemma {:induction false} LoadAt(mem: Memory, a: nat, n: nat, i: nat)
    requires i < n
    ensures LoadAll(mem, a, n)[i] == Load(mem, a + 8 * i)
    decreases n
  {
    if i > 0 { LoadAt(mem, a + 8, n - 1, i - 1); }
  }

  // ---------------------------------------------------------------------
  // Delivery and return
  // ---------------------------------------------------------------------

  /** The 35 words of a signal frame. */
  function FrameOf(c: Context): (w: seq<nat>) { c.regs + [c.sp, c.pc, c.pstate, TRAMPOLINE] }

  /** The context a frame holds. */
  function ContextOf(w: seq<nat>): (c: Context)
    requires |w| == FRAME
  {
    Context(w[..31], w[32], w[33], w[31])
  }

  lemma FrameRoundTrip(c: Context)
    requires |c.regs| == 31
    ensures |FrameOf(c)| == FRAME && ContextOf(FrameOf(c)) == c
  {
  }

  /** Where the frame goes: 288 bytes down, rounded to 16, in 64-bit arithmetic. */
  function FrameAt(sp: nat): (a: nat) { (sp + WORD - 288) % 0x1_0000_0000_0000_0000 / 16 * 16 }

  /** The lowest mapped stack address, with so many pages grown. */
  function StackLow(grown: nat): (a: nat)
    requires grown <= MAX_GROWN
  {
    TOP - (4 + grown) * 4096
  }

  /** deliver_one's check. */
  predicate Accepted(sp: nat, grown: nat)
    requires grown <= MAX_GROWN
  {
    FrameAt(sp) >= StackLow(grown) && sp <= TOP
  }

  /**
   A frame that passes the check lies in the mapped stack, below the interrupted
   stack pointer, exactly when the subtraction did not wrap.
   */
  lemma FrameInStackIff(sp: nat, grown: nat)
    requires sp < WORD && grown <= MAX_GROWN && Accepted(sp, grown)
    ensures StackLow(grown) <= FrameAt(sp) && FrameAt(sp) + 280 <= TOP <==> sp >= 288
    ensures sp >= 288 ==> sp - 304 < FrameAt(sp) <= sp - 288 && FrameAt(sp) % 16 == 0
  {
    if sp >= 288 {
      assert (sp + WORD - 288) % 0x1_0000_0000_0000_0000 == sp - 288;
    } else {
      assert (sp + WORD - 288) % 0x1_0000_0000_0000_0000 == sp + WORD - 288;
    }
  }

  /** The highest multiple of 16 at least 288 below, in 64-bit arithmetic. */
  lemma FrameAtIs(sp: nat)
    requires sp < WORD
    ensures var from := if sp >= 288 then sp - 288 else sp + 0x1_0000_0000_0000_0000 - 288;
      FrameAt(sp) % 16 == 0 && FrameAt(sp) <= from < FrameAt(sp) + 16
  {
    if sp >= 288 {
      assert (sp + WORD - 288) % 0x1_0000_0000_0000_0000 == sp - 288;
    } else {
      assert (sp + WORD - 288) % 0x1_0000_0000_0000_0000 == sp + WORD - 288;
    }
  }

  /** What the check comes to: room for the frame in the mapped stack, or a subtraction that wrapped. */
  lemma AcceptedIff(sp: nat, grown: nat)
    requires sp < WORD && grown <= MAX_GROWN
    ensures Accepted(sp, grown) <==> sp < 288 || 0x80_0000 - (4 + grown) * 4096 + 288 <= sp <= 0x80_0000
  {
    FrameAtIs(sp);
    assert StackLow(grown) % 16 == 0;
  }

  /** It can wrap: a stack pointer of zero passes the check. */
  lemma WrapAccepted()
    ensures Accepted(0, 0) && FrameAt(0) == WORD - 288
  {
  }

  /** The context in which the handler starts. */
  function Entered(c: Context, sig: nat, handler: nat): (c': Context)
    requires |c.regs| == 31
  {
    Context(c.regs[0 := sig][30 := TRAMPOLINE], handler, c.pstate, FrameAt(c.sp))
  }

  function Saved(mem: Memory, c: Context): (mem': Memory) { StoreAll(mem, FrameAt(c.sp), FrameOf(c)) }

  /** signal_sigreturn: None when the frame pointer is refused and the task killed. */
  predicate Returnable(sp: nat) { sp < TOP && (sp + 280) % 0x1_0000_0000_0000_0000 <= TOP }

  function Restored(mem: Memory, sp: nat): (c: Context) { ContextOf(LoadAll(mem, sp, FRAME)) }

  /** A frame in memory, word by word: x0 to x30, stack pointer, program counter, processor state. */
  ghost predicate Frames(mem: Memory, at: nat, c: Context) {
    && |c.regs| == 31 && (forall k :: 0 <= k < 31 ==> Load(mem, at + 8 * k) == c.regs[k])
    && Load(mem, at + 248) == c.sp && Load(mem, at + 256) == c.pc && Load(mem, at + 264) == c.pstate
  }

  lemma WordsLoaded(mem: Memory, at: nat, w: seq<nat>, n: nat)
    requires n == |w| && LoadAll(mem, at, n) == w
    ensures forall k :: 0 <= k < n ==> Load(mem, at + 8 * k) == w[k]
  {
    forall k | 0 <= k < n ensures Load(mem, at + 8 * k) == w[k] { LoadAt(mem, at, n, k); }
  }

  lemma FramesWords(mem: Memory, at: nat, w: seq<nat>)
    requires |w| == FRAME && forall k :: 0 <= k < |w| ==> Load(mem, at + 8 * k) == w[k]
    ensures Frames(mem, at, ContextOf(w)) && Load(mem, at + 272) == w[34]
  {
    assert Load(mem, at + 8 * 31) == w[31];
    assert Load(mem, at + 8 * 32) == w[32];
    assert Load(mem, at + 8 * 33) == w[33];
    assert Load(mem, at + 8 * 34) == w[34];
  }

  /** A delivery writes the frame, the address of the trampoline behind it, and nothing else. */
  lemma SavedIs(mem: Memory, c: Context)
    requires |c.regs| == 31
    ensures var mem', at := Saved(mem, c), FrameAt(c.sp);
      && Frames(mem', at, c) && Load(mem', at + 272) == 0x30_0000
      && forall a: nat :: a < at || at + 280 <= a ==> Load(mem', a) == Load(mem, a)
  {
    FrameRoundTrip(c);
    StoredIs(mem, FrameAt(c.sp), FrameOf(c));
  }

  lemma StoredIs(mem: Memory, at: nat, w: seq<nat>)
    requires |w| == FRAME
    ensures var mem' := StoreAll(mem, at, w);
      && Frames(mem', at, ContextOf(w)) && Load(mem', at + 272) == w[34]
      && forall a: nat :: a < at || at + 280 <= a ==> Load(mem', a) == Load(mem, a)
  {
    var mem' := StoreAll(mem, at, w);
    LoadStored(mem, at, w);
    WordsLoaded(mem', at, w, |w|);
    FramesWords(mem', at, w);
    forall a: nat | a < at || at + 280 <= a ensures Load(mem', a) == Load(mem, a) { StoreFrame(mem, at, w, a); }
  }

  /** A return takes up the context that is framed there. */
  lemma RestoredFrames(mem: Memory, at: nat, c: Context)
    requires c == Restored(mem, at)
    ensures Frames(mem, at, c)
  {
    var w := LoadAll(mem, at, FRAME);
    LoadedFrames(mem, at, w, |w|);
  }

  lemma LoadedFrames(mem: Memory, at: nat, w: seq<nat>, n: nat)
    requires n == FRAME && w == LoadAll(mem, at, n)
    ensures Frames(mem, at, ContextOf(w))
  {
    WordsLoaded(mem, at, w, n);
    FramesWords(mem, at, w);
  }

  lemma ReturnableIff(sp: nat)
    requires sp < WORD
    ensures Returnable(sp) <==> sp + 280 <= 0x80_0000
  {
  }

  // ---------------------------------------------------------------------
  // Nested runs
  // ---------------------------------------------------------------------

  /** An interrupted context and where its frame is. */
  datatype Level = Level(ctx: Context, at: nat)

  /** The task, its memory, and the handlers it is in, the innermost last. */
  datatype Task = Task(ctx: Context, mem: Memory, levels: seq<Level>)

  /** A delivery, whatever user code does, a sigreturn. */
  datatype Event = Deliver(sig: nat, handler: nat) | Work(ctx: Context, mem: Memory) | Return

  function Apply(t: Task, e: Event): (t': Task)
    requires |t.ctx.regs| == 31
  {
    match e
    case Deliver(sig, handler) =>
      Task(Entered(t.ctx, sig, handler), Saved(t.mem, t.ctx), t.levels + [Level(t.ctx, FrameAt(t.ctx.sp))])
    case Work(ctx, mem) => t.(ctx := ctx, mem := mem)
    case Return => Task(Restored(t.mem, t.ctx.sp), t.mem, if t.levels == [] then [] else t.levels[..|t.levels| - 1])
  }

  /** The stack pointer a handler was entered with; at the bottom there is none above. */
  function Floor(levels: seq<Level>): (a: nat) {
    if levels == [] then TOP else levels[|levels| - 1].at
  }

  /**
   Delivery finds the stack pointer in the mapped stack. A handler keeps to the stack
   below where it was entered and leaves the memory above alone, and it returns with the
   stack pointer it was entered with.
   */
  ghost predicate Legal(t: Task, e: Event, grown: nat)
    requires grown <= MAX_GROWN
  {
    match e
    case Deliver(sig, handler) => StackLow(grown) <= t.ctx.sp && Accepted(t.ctx.sp, grown)
    case Work(ctx, mem) =>
      && |ctx.regs| == 31 && ctx.sp <= Floor(t.levels)
      && (t.levels != [] ==> forall a: nat :: Floor(t.levels) <= a ==> Load(mem, a) == Load(t.mem, a))
    case Return => t.levels != [] && t.ctx.sp == Floor(t.levels)
  }

  /** Every frame is where its level says, whole, below the one before, and holds the interrupted context. */
  ghost predicate Framed(mem: Memory, levels: seq<Level>) {
    forall i :: 0 <= i < |levels| ==> FrameOk(mem, levels, i)
  }

  ghost predicate FrameOk(mem: Memory, levels: seq<Level>, i: nat)
    requires i < |levels|
  {
    var l := levels[i];
    && |l.ctx.regs| == 31 && l.at + 288 <= l.ctx.sp <= Floor(levels[..i])
    && LoadAll(mem, l.at, FRAME) == FrameOf(l.ctx)
  }

  ghost predicate Inv(t: Task) {
    |t.ctx.regs| == 31 && t.ctx.sp <= Floor(t.levels) && Framed(t.mem, t.levels)
  }

  /** Frames lie at or above the floor. */
  lemma {:induction false} AboveFloor(mem: Memory, levels: seq<Level>, i: nat)
    requires Framed(mem, levels) && i < |levels|
    ensures Floor(levels) <= levels[i].at
    decreases |levels| - i
  {
    if i + 1 < |levels| {
      AboveFloor(mem, levels, i + 1);
      assert FrameOk(mem, levels, i + 1) && levels[..i + 1][i] == levels[i];
    }
  }

  /** Memory at or above the floor left alone leaves every frame alone. */
  lemma FramesKept(mem: Memory, mem': Memory, levels: seq<Level>)
    requires Framed(mem, levels) && forall a: nat :: Floor(levels) <= a ==> Load(mem', a) == Load(mem, a)
    ensures Framed(mem', levels)
  {
    forall i | 0 <= i < |levels| ensures FrameOk(mem', levels, i) {
      AboveFloor(mem, levels, i);
      assert FrameOk(mem, levels, i);
      LoadSame(mem, mem', levels[i].at, FRAME);
    }
  }

  lemma {:induction false} FloorInStack(mem: Memory, levels: seq<Level>)
    requires Framed(mem, levels)
    ensures Floor(levels) <= TOP
  {
    if levels != [] {
      var n := |levels| - 1;
      assert FrameOk(mem, levels, n);
      FramedPrefix(mem, levels, n);
      FloorInStack(mem, levels[..n]);
    }
  }

  lemma FramedPrefix(mem: Memory, levels: seq<Level>, n: nat)
    requires Framed(mem, levels) && n <= |levels|
    ensures Framed(mem, levels[..n])
  {
    forall i | 0 <= i < n ensures FrameOk(mem, levels[..n], i) {
      assert FrameOk(mem, levels, i) && levels[..n][..i] == levels[..i];
    }
  }

  lemma FramedMore(mem: Memory, levels: seq<Level>, l: Level)
    requires Framed(mem, levels) && |l.ctx.regs| == 31 && l.at + 288 <= l.ctx.sp <= Floor(levels)
    requires LoadAll(mem, l.at, FRAME) == FrameOf(l.ctx)
    ensures Framed(mem, levels + [l])
  {
    var all := levels + [l];
    forall i | 0 <= i < |all| ensures FrameOk(mem, all, i) {
      if i < |levels| {
        assert FrameOk(mem, levels, i) && all[..i] == levels[..i];
      } else {
        assert all[..i] == levels;
      }
    }
  }

  lemma DeliverInv(t: Task, sig: nat, handler: nat, grown: nat)
    requires Inv(t) && grown <= MAX_GROWN && Legal(t, Deliver(sig, handler), grown)
    ensures Inv(Apply(t, Deliver(sig, handler)))
  {
    var mem', at := Saved(t.mem, t.ctx), FrameAt(t.ctx.sp);
    FloorInStack(t.mem, t.levels);
    FrameInStackIff(t.ctx.sp, grown);
    FrameRoundTrip(t.ctx);
    forall a: nat | Floor(t.levels) <= a ensures Load(mem', a) == Load(t.mem, a) {
      StoreFrame(t.mem, at, FrameOf(t.ctx), a);
    }
    FramesKept(t.mem, mem', t.levels);
    LoadStored(t.mem, at, FrameOf(t.ctx));
    FramedMore(mem', t.levels, Level(t.ctx, at));
  }

  /** A return restores exactly the context its delivery interrupted. */
  lemma ReturnRestores(t: Task)
    requires Inv(t) && t.levels != [] && t.ctx.sp == Floor(t.levels)
    ensures Returnable(t.ctx.sp) && Apply(t, Return).ctx == t.levels[|t.levels| - 1].ctx && Inv(Apply(t, Return))
  {
    var n := |t.levels| - 1;
    RestoredIs(t.mem, t.levels);
    FramedPrefix(t.mem, t.levels, n);
    FloorInStack(t.mem, t.levels[..n]);
    InRange(t.ctx.sp);
  }

  lemma InRange(sp: nat)
    requires sp + 288 <= TOP
    ensures Returnable(sp)
  {
  }

  lemma RestoredIs(mem: Memory, levels: seq<Level>)
    requires Framed(mem, levels) && levels != []
    ensures var l := levels[|levels| - 1];
      && Restored(mem, l.at) == l.ctx && |l.ctx.regs| == 31
      && l.at + 288 <= l.ctx.sp <= Floor(levels[..|levels| - 1])
  {
    var n := |levels| - 1;
    assert FrameOk(mem, levels, n);
    FrameRoundTrip(levels[n].ctx);
  }

  lemma StepInv(t: Task, e: Event, grown: nat)
    requires Inv(t) && grown <= MAX_GROWN && Legal(t, e, grown)
    ensures Inv(Apply(t, e))
  {
    match e
    case Deliver(sig, handler) => DeliverInv(t, sig, handler, grown);
    case Work(ctx, mem) => if t.levels != [] { FramesKept(t.mem, mem, t.levels); }
    case Return => ReturnRestores(t);
  }

  ghost function Run(t: Task, es: seq<Event>): (t': Task)
    requires LegalRun(t, es)
    decreases |es|
  {
    if es == [] then t else Run(Apply(t, es[0]), es[1..])
  }

  /** Legal throughout, the stack growing as it may. */
  ghost predicate LegalRun(t: Task, es: seq<Event>)
    decreases |es|
  {
    es != [] ==>
      && |t.ctx.regs| == 31 && (exists grown: nat :: grown <= MAX_GROWN && Legal(t, es[0], grown))
      && LegalRun(Apply(t, es[0]), es[1..])
  }

  lemma {:induction false} RunInv(t: Task, es: seq<Event>)
    requires Inv(t) && LegalRun(t, es)
    ensures Inv(Run(t, es))
    decreases |es|
  {
    if es != [] {
      var grown: nat :| grown <= MAX_GROWN && Legal(t, es[0], grown);
      StepInv(t, es[0], grown);
      RunInv(Apply(t, es[0]), es[1..]);
    }
  }

  /** How deep the events take the task, from depth n; never below a given depth on the way. */
  ghost predicate Nested(es: seq<Event>, n: nat)
    decreases |es|
  {
    if es == [] then n == 0
    else match es[0]
      case Deliver(_, _) => Nested(es[1..], n + 1)
      case Work(_, _) => Nested(es[1..], n)
      case Return => n > 0 && Nested(es[1..], n - 1)
  }

  /** Deliveries and returns that match leave the handlers the task is in as they were. */
  lemma {:induction false} NestedLevels(t: Task, es: seq<Event>, n: nat)
    requires LegalRun(t, es) && Nested(es, n) && n <= |t.levels|
    ensures Run(t, es).levels == t.levels[..|t.levels| - n]
    decreases |es|
  {
    if es != [] {
      var t' := Apply(t, es[0]);
      var n' := match es[0] { case Deliver(_, _) => n + 1 case Work(_, _) => n case Return => n - 1 };
      StepLevels(t, es[0], n);
      NestedLevels(t', es[1..], n');
    }
  }

  lemma StepLevels(t: Task, e: Event, n: nat)
    requires |t.ctx.regs| == 31 && n <= |t.levels| && (e.Return? ==> n > 0)
    ensures var n' := match e { case Deliver(_, _) => n + 1 case Work(_, _) => n case Return => n - 1 };
      var l' := Apply(t, e).levels; n' <= |l'| && l'[..|l'| - n'] == t.levels[..|t.levels| - n]
  {
  }

  /**
   However deep the deliveries nest, a delivery, the handler's matched deliveries and
   returns, and its own return leave x0 to x30, the program counter, the processor
   state and the stack pointer exactly as the delivery found them.
   */
  lemma HandlerTransparent(t: Task, sig: nat, handler: nat, body: seq<Event>)
    requires Inv(t) && LegalRun(t, [Deliver(sig, handler)] + body + [Return]) && Nested(body, 0)
    ensures Run(t, [Deliver(sig, handler)] + body + [Return]).ctx == t.ctx
    ensures Run(t, [Deliver(sig, handler)] + body + [Return]).levels == t.levels
  {
    var es := [Deliver(sig, handler)] + body + [Return];
    var t1 := Apply(t, es[0]);
    assert es[1..] == body + [Return];
    SplitRun(t1, body, [Return]);
    BodyKeeps(t, sig, handler, body);
    var t2 := Run(t1, body);
    assert [Return][1..] == [];
    assert Run(t2, [Return]) == Apply(t2, Return);
    ReturnRestores(t2);
  }

  /** At the end of its body a handler is where it was entered, ready to return. */
  lemma BodyKeeps(t: Task, sig: nat, handler: nat, body: seq<Event>)
    requires Inv(t) && Nested(body, 0)
    requires exists grown: nat :: grown <= MAX_GROWN && Legal(t, Deliver(sig, handler), grown)
    requires LegalRun(Apply(t, Deliver(sig, handler)), body)
    ensures var t2 := Run(Apply(t, Deliver(sig, handler)), body);
      Inv(t2) && t2.levels == t.levels + [Level(t.ctx, FrameAt(t.ctx.sp))]
  {
    var grown: nat :| grown <= MAX_GROWN && Legal(t, Deliver(sig, handler), grown);
    var t1 := Apply(t, Deliver(sig, handler));
    DeliverInv(t, sig, handler, grown);
    RunInv(t1, body);
    NestedLevels(t1, body, 0);
    assert t1.levels[..|t1.levels| - 0] == t1.levels;
  }

  lemma {:induction false} SplitRun(t: Task, a: seq<Event>, b: seq<Event>)
    requires LegalRun(t, a + b)
    ensures LegalRun(t, a) && LegalRun(Run(t, a), b) && Run(t, a + b) == Run(Run(t, a), b)
    decreases |a|
  {
    if a == [] {
      assert a + b == b;
    } else {
      assert (a + b)[1..] == a[1..] + b;
      SplitRun(Apply(t, a[0]), a[1..], b);
    }
  }
}
