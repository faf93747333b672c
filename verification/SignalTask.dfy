/** A task's signal state as the kernel updates it: trap frame, user stack and masks in place. */
module SignalTask {
  import opened Bits
  import opened Common
  import opened Signal
  import opened SignalMasks

  lemma {:induction false} StoreMore(mem: Memory, a: nat, words: seq<nat>, w: nat)
    ensures StoreAll(mem, a, words + [w]) == StoreAll(mem, a, words)[a + 8 * |words| := w]
    decreases |words|
  {
    if words == [] {
      assert [w][1..] == [] && words + [w] == [w];
    } else {
      StoreMore(mem[a := words[0]], a + 8, words[1..], w);
      assert (words + [w])[1..] == words[1..] + [w];
    }
  }

  lemma FrameWords(mem: Memory, at: nat)
    ensures var w := LoadAll(mem, at, FRAME);
      w[31] == Load(mem, at + 248) && w[32] == Load(mem, at + 256) && w[33] == Load(mem, at + 264)
  {
    LoadAt(mem, at, FRAME, 31);
    LoadAt(mem, at, FRAME, 32);
    LoadAt(mem, at, FRAME, 33);
  }

  /** The new stack pointer is the highest multiple of 16 at least 288 below the old one, in 64-bit arithmetic. */
  ghost predicate Below(was: nat, sp: nat) {
    var from := if was >= 288 then was - 288 else was + 0x1_0000_0000_0000_0000 - 288;
    sp % 16 == 0 && sp <= from < sp + 16
  }

  /** The context is framed at `at`, the trampoline's address behind it, and no other word has changed. */
  ghost predicate PutAt(was: Memory, mem: Memory, at: nat, c: Context) {
    && Frames(mem, at, c) && Load(mem, at + 272) == 0x30_0000
    && forall a: nat :: a < at || at + 280 <= a ==> Load(mem, a) == Load(was, a)
  }

  /** How an argument pointer turns out: absent, out of range, or pointing at a mask. */
  datatype Pointer = Null | Bad | Good(value: nat)

  datatype How = Block | Unblock | SetMask | Other

  /** Whether signal n is to be blocked after such a call. */
  ghost predicate Asked(how: How, was: nat, set1: nat, n: nat) {
    match how
    case Block => Bit(was, n) || Bit(set1, n)
    case Unblock => Bit(was, n) && !Bit(set1, n)
    case SetMask => Bit(set1, n)
    case Other => Bit(was, n)
  }

  /** The mask asked for, before SIGKILL is taken out. */
  function Wanted(how: How, was: nat, set1: nat): (w: nat)
    requires Mask(set1)
  {
    match how
    case Block => Or(was, set1)
    case Unblock => And(was, Not(set1, WIDTH))
    case SetMask => set1
    case Other => was
  }

  lemma WantedIs(how: How, was: nat, set1: nat)
    requires Mask(was) && Mask(set1)
    ensures Mask(Wanted(how, was, set1)) && forall n: nat :: n < 32 ==>
      (Bit(Wanted(how, was, set1), n) <==> Asked(how, was, set1, n))
  {
    OrBound(was, set1, WIDTH);
    AndBound(was, Not(set1, WIDTH));
    forall n: nat | n < 32 ensures Bit(Wanted(how, was, set1), n) <==> Asked(how, was, set1, n) {
      BitOr(was, set1, n);
      BitAnd(was, Not(set1, WIDTH), n);
      BitNot(set1, WIDTH, n);
    }
  }

  /** The mask such a call puts in force: the one asked for without SIGKILL. */
  function Granted(how: How, was: nat, set1: nat): (w: nat)
    requires Mask(was) && Mask(set1)
    ensures Mask(w) && !Bit(w, SIGKILL)
    ensures forall n: nat :: n < 32 ==> (Bit(w, n) <==> n != SIGKILL && Asked(how, was, set1, n))
  {
    WantedIs(how, was, set1);
    ClearIs(Wanted(how, was, set1), SIGKILL);
    Clear(Wanted(how, was, set1), SIGKILL)
  }

  /** Nothing is asked for that is not so already, SIGKILL aside. */
  ghost predicate Idle(how: How, was: nat, set1: nat) {
    forall n: nat :: n < 32 && n != SIGKILL ==> (Asked(how, was, set1, n) <==> Bit(was, n))
  }

  /** A call changes the mask exactly when it asks for something new. */
  lemma GrantedIff(how: How, was: nat, set1: nat)
    requires Mask(was) && !Bit(was, SIGKILL) && Mask(set1)
    ensures Granted(how, was, set1) == was <==> Idle(how, was, set1)
  {
    if Idle(how, was, set1) { SameBits(Granted(how, was, set1), was, WIDTH); }
  }

  class UserTask {
    const regs: array<nat>
    const handlers: array<nat>
    var pc: nat
    var pstate: nat
    var sp: nat
    var mem: Memory
    var pending: nat
    var blocked: nat
    var grown: nat
    var alive: bool

    ghost predicate Valid()
      reads this, regs, handlers
    {
      && regs.Length == 31 && handlers.Length == 32 && regs != handlers && grown <= MAX_GROWN && sp < Signal.WORD
      && Mask(pending) && Mask(blocked) && !Bit(blocked, SIGKILL)
    }

    ghost function Ctx(): (c: Context)
      reads this, regs
    {
      Context(regs[..], pc, pstate, sp)
    }

    constructor (entry: nat)
      ensures Valid() && alive && pending == 0 && blocked == 0 && fresh(regs) && fresh(handlers)
      ensures pc == entry && pstate == 0 && sp == 0x80_0000 && mem == map[]
    {
      regs := new nat[31](_ => 0);
      handlers := new nat[32](_ => 0);
      pc, pstate, sp, mem, pending, blocked, grown, alive := entry, 0, TOP, map[], 0, 0, 0, true;
      new;
      BitZero(SIGKILL);
    }

    /** deliver_one: save the context on the user stack and enter the handler, or end the task. */
    method DeliverOne(sig: nat, handler: nat) returns (ok: bool)
      requires Valid()
      modifies this`pc, this`sp, this`mem, this`alive, regs
      ensures Valid() && ok == Accepted(old(sp), grown)
      ensures ok <==> old(sp) < 288 || 0x80_0000 - (4 + grown) * 4096 + 288 <= old(sp) <= 0x80_0000
      ensures ok ==> pc == handler && regs[0] == sig && regs[30] == 0x30_0000 && regs[1..30] == old(regs[1..30])
      ensures ok ==> Below(old(sp), sp) && PutAt(old(mem), mem, sp, old(Ctx())) && alive == old(alive)
      ensures ok ==> Ctx() == Entered(old(Ctx()), sig, handler) && mem == Saved(old(mem), old(Ctx()))
      ensures !ok ==> !alive && Ctx() == old(Ctx()) && mem == old(mem)
    {
      var at := FrameAt(sp);
      AcceptedIff(sp, grown);
      FrameAtIs(sp);
      SavedIs(mem, Ctx());
      if at < StackLow(grown) || sp > TOP {
        alive := false;
        return false;
      }
      SaveFrame(at);
      pc := handler;
      regs[0] := sig;
      regs[30] := TRAMPOLINE;
      sp := at;
      ok := true;
    }

    /** Copy the registers and the four words behind them. */
    method SaveFrame(at: nat)
      requires regs.Length == 31
      modifies this`mem
      ensures mem == StoreAll(old(mem), at, FrameOf(Ctx()))
    {
      ghost var was, frame := mem, FrameOf(Ctx());
      for i := 0 to 31
        invariant mem == StoreAll(was, at, frame[..i])
      {
        StoreMore(was, at, frame[..i], regs[i]);
        assert frame[..i + 1] == frame[..i] + [regs[i]];
        mem := mem[at + 8 * i := regs[i]];
      }
      StoreMore(was, at, frame[..31], sp);
      StoreMore(was, at, frame[..32], pc);
      StoreMore(was, at, frame[..33], pstate);
      StoreMore(was, at, frame[..34], TRAMPOLINE);
      assert frame[..32] == frame[..31] + [sp] && frame[..33] == frame[..32] + [pc];
      assert frame[..34] == frame[..33] + [pstate] && frame == frame[..34] + [TRAMPOLINE];
      mem := mem[at + 248 := sp];
      mem := mem[at + 256 := pc];
      mem := mem[at + 264 := pstate];
      mem := mem[at + 272 := TRAMPOLINE];
    }

    /** signal_sigreturn: restore the context from the frame at the stack pointer, or end the task. */
    method Sigreturn()
      requires Valid()
      modifies this`pc, this`pstate, this`sp, this`alive, regs
      ensures regs.Length == 31 && mem == old(mem)
      ensures old(sp) + 280 <= 0x80_0000 ==>
        Ctx() == Restored(mem, old(sp)) && Frames(mem, old(sp), Ctx()) && alive == old(alive)
      ensures old(sp) + 280 > 0x80_0000 ==> !alive && Ctx() == old(Ctx())
    {
      ReturnableIff(sp);
      if !Returnable(sp) {
        alive := false;
        return;
      }
      ghost var at := sp;
      LoadContext(sp);
      RestoredFrames(mem, at, Ctx());
    }

    method LoadContext(at: nat)
      requires regs.Length == 31
      modifies this`pc, this`pstate, this`sp, regs
      ensures Ctx() == Restored(mem, at)
    {
      LoadRegs(at);
      FrameWords(mem, at);
      pc := Load(mem, at + 256);
      pstate := Load(mem, at + 264);
      sp := Load(mem, at + 248);
    }

    method LoadRegs(at: nat)
      requires regs.Length == 31
      modifies regs
      ensures regs[..] == LoadAll(mem, at, FRAME)[..31]
    {
      for i := 0 to 31
        invariant forall k :: 0 <= k < i ==> regs[k] == LoadAll(mem, at, FRAME)[k]
      {
        LoadAt(mem, at, FRAME, i);
        regs[i] := Load(mem, at + 8 * i);
      }
    }

    /** signal_check_and_deliver, on the way back to user mode. */
    method CheckAndDeliver() returns (delivered: bool, ghost c: Choice)
      requires Valid()
      modifies this`pc, this`sp, this`mem, this`alive, this`pending, regs
      ensures Valid() && blocked == old(blocked)
      ensures old(pstate) % 16 != 0 ==>
        !delivered && c == Nothing && Ctx() == old(Ctx()) && mem == old(mem) && pending == old(pending)
      ensures old(pstate) % 16 == 0 ==> Chosen(old(pending), blocked, handlers[..], c)
      ensures old(pstate) % 16 == 0 ==>
        forall n: nat :: n < 32 ==> (Bit(pending, n) <==> Bit(old(pending), n) && !Dropped(old(pending), blocked, c, n))
      ensures delivered <==>
        c.Handle? && (old(sp) < 288 || 0x80_0000 - (4 + grown) * 4096 + 288 <= old(sp) <= 0x80_0000)
      ensures delivered ==>
        pc == c.handler && regs[0] == c.sig && regs[30] == 0x30_0000 && regs[1..30] == old(regs[1..30])
      ensures delivered ==> Below(old(sp), sp) && PutAt(old(mem), mem, sp, old(Ctx())) && alive == old(alive)
      ensures delivered ==> Ctx() == Entered(old(Ctx()), c.sig, c.handler) && mem == Saved(old(mem), old(Ctx()))
      ensures !delivered ==> Ctx() == old(Ctx()) && mem == old(mem) && alive == (old(alive) && c.Nothing?)
    {
      if pstate % 16 != 0 {
        return false, Nothing;
      }
      var choice;
      choice, pending := Choose(pending, blocked, handlers[..]);
      c := choice;
      match choice
      case Nothing => delivered := false;
      case Kill(_) =>
        alive := false;
        delivered := false;
      case Handle(sig, handler) => delivered := DeliverOne(sig, handler);
    }

    /** signal_sigaction. */
    method Sigaction(sig: nat, handler: nat) returns (ok: bool)
      requires Valid()
      modifies handlers
      ensures Valid() && ok == (1 <= sig <= 31 && sig != 9)
      ensures handlers[..] == if ok then old(handlers[..])[sig := handler] else old(handlers[..])
    {
      if sig < 1 || sig > 31 || sig == SIGKILL {
        return false;
      }
      handlers[sig] := handler;
      ok := true;
    }

    /**
     signal_sigprocmask. The mask asked for comes into force, save for SIGKILL, even when
     the old one cannot be handed back: a refused call leaves the mask alone exactly when
     it was not refused for that, or asked for nothing new. What is handed back is the mask
     from before the call.
     */
    method Sigprocmask(how: How, newSet: Pointer, oldSet: Pointer) returns (ok: bool, handed: Option<nat>)
      requires Valid() && (newSet.Good? ==> Mask(newSet.value))
      modifies this`blocked
      ensures Valid()
      ensures ok <==> !newSet.Bad? && !(newSet.Good? && how == Other) && !oldSet.Bad?
      ensures handed == if ok && oldSet.Good? then Some(old(blocked)) else None
      ensures !newSet.Good? || how == Other ==> blocked == old(blocked)
      ensures newSet.Good? && how != Other ==>
        forall n: nat :: n < 32 ==> (Bit(blocked, n) <==> n != 9 && Asked(how, old(blocked), newSet.value, n))
      ensures !ok ==> (blocked == old(blocked) <==>
        !(newSet.Good? && how != Other && oldSet.Bad?) || Idle(how, old(blocked), newSet.value))
    {
      var before := blocked;
      match newSet {
        case Null =>
        case Bad => return false, None;
        case Good(set1) =>
          if how == Other {
            return false, None;
          }
          GrantedIff(how, blocked, set1);
          blocked := Granted(how, blocked, set1);
      }
      match oldSet {
        case Null => return true, None;
        case Bad => return false, None;
        case Good(_) => return true, Some(before);
      }
    }
  }

  /**
   It happens: signal 1 is to be blocked and the old mask cannot be handed back. The call
   fails and the signal is blocked.
   */
  method RefusedBlocks(t: UserTask) returns (ok: bool, handed: Option<nat>)
    requires t.Valid() && !Bit(t.blocked, 1)
    modifies t`blocked
    ensures !ok && handed == None && Bit(t.blocked, 1)
  {
    assert Bit(2, 1) && Bit(1, 0);
    Pow2Less(1, WIDTH);
    ok, handed := t.Sigprocmask(Block, Good(2), Bad);
  }
}
