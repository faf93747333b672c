/**
 Block requests with their data: the device takes the chain out of the descriptor
 table, acts on disk and memory when it publishes the completion, and all of it goes on
 under the timeout, retry and reset policy, in polling and in interrupt mode.
 */
module BlkServed {
  import opened Common
  import opened Virtqueue
  import opened VirtqueueRuns
  import opened Blk
  import opened BlkRetry
  import opened BlkDevice

  /** Disk and memory. */
  type Data = (seq<Octet>, seq<Octet>)

  /** The queue, the disk behind it and the memory around it. */
  datatype Bench = Bench(s: Station, data: Data)

  /**
   An attempt; `fault` says what a device that fails the request makes of disk and memory,
   `late` what still happens between a timeout and the reset.
   */
  datatype Trial = Trial(a: Attempt, fault: Option<Data -> Data>, late: seq<Event>)

  // ---------------------------------------------------------------------
  // The device at work
  // ---------------------------------------------------------------------

  /** The chain found in the table from descriptor h on, no longer than n. */
  ghost function ChainAt(desc: seq<Desc>, h: nat, n: nat): (chain: seq<Seg>)
    decreases n
  {
    if n == 0 || h >= |desc| then [] else
      var d := desc[h];
      [SegOf(d)] + if HasNext(d.flags) then ChainAt(desc, d.next, n - 1) else []
  }

  function SegOf(d: Desc): (s: Seg) { Seg(d.addr, d.len, d.flags & !F_NEXT) }

  /** What the device leaves when it has done with a chain. */
  ghost function Done(fault: Option<Data -> Data>, chain: seq<Seg>, data: Data): (data': Data) {
    match fault
    case Some(f) => f(data)
    case None =>
      var s := Obey(chain, data.0, data.1);
      if s.Some? then s.value else data
  }

  ghost predicate Publishes(m: Machine, e: Event) { e.Device? && e.step.Publish? && Act(m, e.step).1 == Published }

  /** An event, with what it does to the data. */
  ghost function OccurOn(fault: Option<Data -> Data>, b: Bench, e: Event): (b': Bench) {
    var q := b.s.m.q;
    Bench(Occur(b.s, e),
          if Publishes(b.s.m, e) then Done(fault, ChainAt(q.table.desc, e.step.elem.id, q.size), b.data) else b.data)
  }

  ghost function StepOn(fault: Option<Data -> Data>): (f: (Bench, Event) -> Bench) {
    (b: Bench, e: Event) => OccurOn(fault, b, e)
  }

  ghost function SeeOn(see: Station -> (Station, bool)): (f: Bench -> (Bench, bool)) {
    (b: Bench) => (b.(s := see(b.s).0), see(b.s).1)
  }

  ghost function WaitOn(b: Bench, t: Trial): (r: (Bench, bool)) {
    var b1 := Fold(StepOn(t.fault), b, t.a.early);
    PollAll(Looking(StepOn(t.fault), SeeOn(SeeIn(t.a.mode, b1.s.completions))), b1, t.a.spins)
  }

  /** Header filled in, status byte set to 0xFF. */
  ghost function Prepared(c: Setting, mem: seq<Octet>, sector: nat): (mem': seq<Octet>) {
    if c.hdr + 16 <= |mem| && c.status < |mem| then Headed(c, mem[c.status := 0xFF], sector) else mem
  }

  ghost predicate StatusOk(c: Setting, data: Data) { c.status < |data.1| && data.1[c.status] == 0 }

  /** blk_submit_once for request r. */
  ghost function OnceOn(c: Setting, r: Request, b: Bench, t: Trial): (x: (Bench, Rc))
    requires c.sizeMax > 0
  {
    var data := (b.data.0, Prepared(c, b.data.1, r.sector));
    var sent := Act(b.s.m, SubmitMany(Built(c, r)));
    var b1 := Bench(b.s.(m := sent.0), data);
    if sent.1 == Full then (b1, NoSpace) else
      var waited := WaitOn(b1, t);
      if !waited.1 then (Fold(StepOn(t.fault), waited.0, t.late), TimedOut)
      else (waited.0, if StatusOk(c, waited.0.data) then Success else IoError)
  }

  ghost function OnceOnOf(c: Setting, r: Request): (f: (Bench, Trial) -> (Bench, Rc))
    requires c.sizeMax > 0
  {
    (b: Bench, t: Trial) => OnceOn(c, r, b, t)
  }

  /** A reset rebuilds the queue and leaves the data alone. */
  ghost function ResetOn(): (f: (Bench, Trial) -> Option<Bench>) {
    (b: Bench, t: Trial) => if t.a.reset.None? then None else Some(b.(s := t.a.reset.value))
  }

  /** blk_submit_retry for request r. */
  ghost function RetryOn(c: Setting, r: Request, d: Driver<Bench>, tries: seq<Trial>): (x: (Driver<Bench>, Rc))
    requires c.sizeMax > 0
  {
    Retry(OnceOnOf(c, r), ResetOn(), d, tries, 0)
  }

  // ---------------------------------------------------------------------
  // Without the data it is the policy on the queue
  // ---------------------------------------------------------------------

  lemma {:induction false} FoldOver<B(!new), S, E(!new)>(stepB: (B, E) -> B, step: (S, E) -> S, of: B -> S, b: B,
                                                         events: seq<E>)
    requires forall x, e :: of(stepB(x, e)) == step(of(x), e)
    ensures of(Fold(stepB, b, events)) == Fold(step, of(b), events)
    decreases |events|
  {
    if events != [] { FoldOver(stepB, step, of, stepB(b, events[0]), events[1..]); }
  }

  lemma {:induction false} PollOver<B(!new), S, E(!new)>(
    stepB: (B, E) -> B, step: (S, E) -> S, seeB: B -> (B, bool), see: S -> (S, bool), of: B -> S, b: B,
    spins: seq<seq<E>>)
    requires forall x, e :: of(stepB(x, e)) == step(of(x), e)
    requires forall x :: of(seeB(x).0) == see(of(x)).0 && seeB(x).1 == see(of(x)).1
    ensures var (x, y) := (PollAll(Looking(stepB, seeB), b, spins), PollAll(Looking(step, see), of(b), spins));
      of(x.0) == y.0 && x.1 == y.1
    decreases |spins|
  {
    if spins != [] {
      FoldOver(stepB, step, of, b, spins[0]);
      var b' := Fold(stepB, b, spins[0]);
      assert Looking(stepB, seeB)(b, spins[0]) == seeB(b') && Looking(step, see)(of(b), spins[0]) == see(of(b'));
      if !seeB(b').1 { PollOver(stepB, step, seeB, see, of, seeB(b').0, spins[1..]); }
    }
  }

  lemma WaitOver(b: Bench, t: Trial)
    ensures WaitOn(b, t).0.s == Wait(b.s, t.a).0 && WaitOn(b, t).1 == Wait(b.s, t.a).1
  {
    var of := (x: Bench) => x.s;
    FoldOver(StepOn(t.fault), Occur, of, b, t.a.early);
    var b1 := Fold(StepOn(t.fault), b, t.a.early);
    var c := b1.s.completions;
    PollOver(StepOn(t.fault), Occur, SeeOn(SeeIn(t.a.mode, c)), SeeIn(t.a.mode, c), of, b1, t.a.spins);
  }

  // ---------------------------------------------------------------------
  // The chain in the table
  // ---------------------------------------------------------------------

  /** The device finds in the table the segments that were submitted. */
  lemma {:induction false} ChainFound(desc: seq<Desc>, size: nat, c: Chain, i: nat, n: nat)
    requires InTable(desc, size, c) && i < |c.idx| && n >= |c.idx| - i
    ensures ChainAt(desc, c.idx[i], n) == c.segs[i..]
    decreases |c.idx| - i
  {
    LinkRead(c, i);
    var rest := c.segs[i + 1..];
    if i + 1 < |c.idx| { ChainFound(desc, size, c, i + 1, n - 1); }
    ChainStep(desc, c.idx[i], n, desc[c.idx[i]], c.segs[i], rest);
    assert c.segs[i..] == [c.segs[i]] + rest;
  }

  lemma ChainStep(desc: seq<Desc>, h: nat, n: nat, d: Desc, s: Seg, rest: seq<Seg>)
    requires 0 < n && h < |desc| && d == desc[h] && s == SegOf(d)
    requires rest == if HasNext(d.flags) then ChainAt(desc, d.next, n - 1) else []
    ensures ChainAt(desc, h, n) == [s] + rest
  {
  }

  lemma LinkRead(c: Chain, i: nat)
    requires |c.idx| == |c.segs| && Plain(c.segs) && i < |c.idx|
    ensures var d := Link(c.idx, c.segs, i);
      && SegOf(d) == c.segs[i] && (HasNext(d.flags) <==> i + 1 < |c.idx|)
      && (i + 1 < |c.idx| ==> d.next == c.idx[i + 1])
  {
    var d, s := Link(c.idx, c.segs, i), c.segs[i];
    if i + 1 < |c.idx| { MarkedMore(s, d); } else { MarkedLast(s, d); }
  }

  lemma MarkedMore(s: Seg, d: Desc)
    requires !HasNext(s.flags) && d.addr == s.pa && d.len == s.len && d.flags == s.flags | F_NEXT
    ensures SegOf(d) == s && HasNext(d.flags)
  {
    NextBit(s.flags);
    FlagOff(s.flags);
  }

  lemma MarkedLast(s: Seg, d: Desc)
    requires !HasNext(s.flags) && d.addr == s.pa && d.len == s.len && d.flags == s.flags
    ensures SegOf(d) == s
  {
    FlagKept(s.flags);
  }

  lemma FlagKept(f: bv16)
    requires !HasNext(f)
    ensures f & !F_NEXT == f
  {
  }

  lemma FlagOff(f: bv16)
    requires !HasNext(f)
    ensures (f | F_NEXT) & !F_NEXT == f
  {
  }

  /** A chain just sent from a quiet queue is what the device will find. */
  lemma SentFound(m: Machine, segs: seq<Seg>)
    requires Quiet(m) && segs != [] && Plain(segs) && |segs| <= m.q.size
    ensures var (m', answer) := Act(m, SubmitMany(segs));
      && answer.Handle? && Pending(m', answer.head, m.q.size) && !Back(m')
      && ChainAt(m'.q.table.desc, answer.head, m.q.size) == segs
  {
    SendEnds(m, segs);
    var l := Explanation(m, {});
    StepAgrees(m, l, SubmitMany(segs));
    assert l.books.chains == map[];
    AllFree(l.books, m.q.size);
    SentQueued(m, l, segs);
    var m', l' := Act(m, SubmitMany(segs)).0, Enter(l, SubmitMany(segs)).0;
    BackIs(m', l');
    var h := l.books.free[0];
    assert l'.books.chains[h].segs == segs && l'.books.chains[h].idx[0] == h;
    ChainFound(m'.q.table.desc, m.q.size, l'.books.chains[h], 0, m.q.size);
  }

  // ---------------------------------------------------------------------
  // The request acts on the data once, when it is published
  // ---------------------------------------------------------------------

  /** Only the outstanding request can be published, and only once. */
  lemma PublishOnce(m: Machine, h: nat, size: nat, e: UsedElem)
    requires Pending(m, h, size)
    ensures var (m', o) := Act(m, Publish(e));
      if o == Published then e.id == h && !Back(m) && Back(m') && m'.q.table == m.q.table else m' == m
  {
    var l := Explanation(m, {h});
    StepAgrees(m, l, Publish(e));
    BackIs(m, l);
    BackIs(Act(m, Publish(e)).0, Enter(l, Publish(e)).0);
    InvBacked(m.q, l);
    if e.id in m.held { TakenOnly(l.log, h, e.id); }
  }

  lemma TakenOnly(g: Log, h: nat, id: nat)
    requires Staged(g, {h}) && id in g.stage && g.stage[id] == Taken
    ensures id == h && g.reaped == |g.used|
  {
    UnreadComplete(g, h);
  }

  lemma UnreadComplete(g: Log, h: nat)
    requires Staged(g, {h})
    ensures g.reaped < |g.used| ==> g.stage[h] == Complete(g.reaped)
  {
    if g.reaped < |g.used| { assert g.used[g.reaped].id in g.stage; }
  }

  lemma FetchKeeps(m: Machine, h: nat, size: nat)
    requires Pending(m, h, size)
    ensures var m' := Act(m, Fetch).0; m'.q.table == m.q.table && (Back(m') <==> Back(m))
  {
    var l := Explanation(m, {h});
    FetchBack(m, l);
  }

  lemma FetchBack(m: Machine, l: Ledger)
    requires Agrees(m, l)
    ensures var m' := Act(m, Fetch).0; m'.q.table == m.q.table && (Back(m') <==> Back(m))
  {
    BackIs(m, l);
    var m', l' := Act(m, Fetch).0, Enter(l, Fetch).0;
    StepAgrees(m, l, Fetch);
    assert l'.log.reaped == l.log.reaped && l'.log.used == l.log.used;
    BackIs(m', l');
  }

  lemma NothingHeld(m: Machine, e: UsedElem)
    requires Quiet(m)
    ensures Act(m, Publish(e)).1 != Published
  {
    var l := Explanation(m, {});
    StepAgrees(m, l, Publish(e));
  }

  /** A request under way: its head, the queue's size, its chain, and the data before and after it. */
  datatype Way = Way(h: nat, size: nat, c: nat, chain: seq<Seg>, before: Data, after: Data)

  ghost predicate Live(b: Bench, w: Way) {
    && Waiting(b.s, w.h, w.size, w.c) && ChainAt(b.s.m.q.table.desc, w.h, w.size) == w.chain
    && b.data == if Back(b.s.m) then w.after else w.before
  }

  ghost predicate Over(b: Bench, w: Way) { Quiet(b.s.m) && b.data == w.after }

  ghost function UnderWay(w: Way): (p: Bench -> bool) { (b: Bench) => Live(b, w) || Over(b, w) }

  lemma DeviceKeeps(fault: Option<Data -> Data>, b: Bench, step: Step, w: Way)
    requires Live(b, w) && (step.Fetch? || step.Publish?) && w.after == Done(fault, w.chain, w.before)
    ensures Live(OccurOn(fault, b, Device(step)), w)
  {
    DeviceStep(b.s.m, step, {w.h});
    if step.Fetch? { FetchKeeps(b.s.m, w.h, w.size); } else { PublishOnce(b.s.m, w.h, w.size, step.elem); }
  }

  lemma InterruptKeeps(fault: Option<Data -> Data>, b: Bench, w: Way)
    requires Live(b, w)
    ensures UnderWay(w)(OccurOn(fault, b, Interrupt))
  {
    var back := DrainEnds(b.s, w.h, w.size, w.c);
    if !back { NothingBack(b.s.m, w.h, w.size); }
  }

  lemma OverKeeps(fault: Option<Data -> Data>, b: Bench, e: Event, w: Way)
    requires Over(b, w) && (e.Device? ==> e.step.Fetch? || e.step.Publish?)
    ensures Over(OccurOn(fault, b, e), w)
  {
    SettledStep(b.s, e, b.s.m.q.size, b.s.completions);
    if e.Device? && e.step.Publish? { NothingHeld(b.s.m, e.step.elem); }
  }

  lemma StepKeeps(t: Trial, w: Way)
    requires w.after == Done(t.fault, w.chain, w.before)
    ensures Moves(StepOn(t.fault), AsideIn(t.a.mode), UnderWay(w), Never())
  {
    forall b, e | UnderWay(w)(b) && AsideIn(t.a.mode)(e) ensures UnderWay(w)(StepOn(t.fault)(b, e)) {
      if Over(b, w) {
        OverKeeps(t.fault, b, e, w);
      } else if e.Interrupt? {
        InterruptKeeps(t.fault, b, w);
      } else {
        DeviceKeeps(t.fault, b, e.step, w);
      }
    }
  }

  lemma LookKeeps(mode: Mode, c: nat, w: Way, b: Bench)
    requires UnderWay(w)(b)
    ensures UnderWay(w)(SeeOn(SeeIn(mode, c))(b).0)
  {
    if mode == Polling { PollKeepsOne(b, w); } else { assert SeeIn(mode, c)(b.s).0 == b.s; }
  }

  lemma PollKeepsOne(b: Bench, w: Way)
    requires Live(b, w) || Over(b, w)
    ensures UnderWay(w)(b.(s := ReapOne(b.s).0))
  {
    if Over(b, w) {
      ReapQuiet(b.s.m);
    } else {
      ReapEnds(b.s.m, w.h, w.size);
      if !Back(b.s.m) { NothingBack(b.s.m, w.h, w.size); }
    }
  }

  lemma {:induction false} PollKeeps<S(!new), E(!new)>(
    step: (S, E) -> S, see: S -> (S, bool), ok: E -> bool, inv: S -> bool, s: S, spins: seq<seq<E>>)
    requires Moves(step, ok, inv, Never()) && (forall x :: inv(x) ==> inv(see(x).0)) && inv(s)
    requires forall i :: 0 <= i < |spins| ==> All(ok, spins[i])
    ensures inv(PollAll(Looking(step, see), s, spins).0)
    decreases |spins|
  {
    if spins != [] {
      assert All(ok, spins[0]);
      FoldMoves(step, ok, inv, Never(), s, spins[0]);
      var s' := Fold(step, s, spins[0]);
      assert Looking(step, see)(s, spins[0]) == see(s');
      if !see(s').1 { PollKeeps(step, see, ok, inv, see(s').0, spins[1..]); }
    }
  }

  ghost predicate Careful(t: Trial) { Sane(t.a) && All(AsideIn(t.a.mode), t.late) }

  /** However a wait ends, the request has acted or not; if it succeeds, it has. */
  lemma WaitServes(b: Bench, t: Trial, w: Way)
    requires Live(b, w) && Sane(t.a) && w.after == Done(t.fault, w.chain, w.before)
    ensures var x := WaitOn(b, t);
      UnderWay(w)(x.0) && (x.1 ==> x.0.data == w.after && Quiet(x.0.s.m))
  {
    var b1 := Fold(StepOn(t.fault), b, t.a.early);
    var see := SeeOn(SeeIn(t.a.mode, b1.s.completions));
    StepKeeps(t, w);
    FoldMoves(StepOn(t.fault), AsideIn(t.a.mode), UnderWay(w), Never(), b, t.a.early);
    forall x | UnderWay(w)(x) ensures UnderWay(w)(see(x).0) { LookKeeps(t.a.mode, b1.s.completions, w, x); }
    PollKeeps(StepOn(t.fault), see, AsideIn(t.a.mode), UnderWay(w), b1, t.a.spins);
    var early := WaitEnds(b.s, t.a, w.h, w.size, w.c);
    WaitOver(b, t);
    var x := WaitOn(b, t);
    assert UnderWay(w)(x.0);
    if x.1 && Live(x.0, w) { PendingBusy(x.0.s.m, w.h, w.size); }
  }

  /** What still happens after a timeout makes no difference to that. */
  lemma LateServes(b: Bench, t: Trial, w: Way)
    requires UnderWay(w)(b) && Careful(t) && w.after == Done(t.fault, w.chain, w.before)
    ensures var b' := Fold(StepOn(t.fault), b, t.late); b'.data == w.before || b'.data == w.after
  {
    StepKeeps(t, w);
    FoldMoves(StepOn(t.fault), AsideIn(t.a.mode), UnderWay(w), Never(), b, t.late);
    assert UnderWay(w)(Fold(StepOn(t.fault), b, t.late));
  }

  // ---------------------------------------------------------------------
  // One request
  // ---------------------------------------------------------------------

  /** Disk and memory differ at most where request r works. */
  ghost predicate NearBy(c: Setting, r: Request, data: Data, data': Data) {
    Near(c, r.sector * 512, r.addr, r.count * 512, data.0, data.1, data'.0, data'.1)
  }

  /** The request has been served; only what the header holds is left open. */
  ghost predicate ServedAs(c: Setting, r: Request, data: Data, data': Data) {
    && Servable(c, data.0, data.1, r)
    && data'.0 == Serve(c, data.0, data.1, r).0 && Alike(c, Serve(c, data.0, data.1, r).1, data'.1)
  }

  /** Room for the request, its words apart from each other, and its numbers within their widths. */
  ghost predicate Meets(c: Setting, r: Request, data: Data) {
    && Servable(c, data.0, data.1, r) && Clear(c, r.addr, r.count * 512)
    && r.sector < 0x1_0000_0000_0000_0000 && r.count * 512 < 0x1_0000_0000
  }

  /** A device that fails the request keeps to the places it works on, and says so in the status byte. */
  ghost predicate Harmless(c: Setting, r: Request, fault: Option<Data -> Data>) {
    fault.Some? ==> forall data: Data :: Servable(c, data.0, data.1, r) ==> FailedAs(c, r, data, fault.value(data))
  }

  ghost predicate FailedAs(c: Setting, r: Request, data: Data, data': Data) {
    NearBy(c, r, data, data') && !StatusOk(c, data')
  }

  ghost predicate Fair(c: Setting, r: Request, tries: seq<Trial>) {
    forall i :: 0 <= i < |tries| ==> Careful(tries[i]) && Harmless(c, r, tries[i].fault)
  }

  lemma PreparedNear(c: Setting, r: Request, data: Data, data1: Data)
    requires Servable(c, data.0, data.1, r) && data1 == (data.0, Prepared(c, data.1, r.sector))
    ensures NearBy(c, r, data, data1) && Servable(c, data1.0, data1.1, r)
  {
  }

  lemma ObeysPrepared(c: Setting, r: Request, data: Data, data1: Data)
    requires Meets(c, r, data) && data1 == (data.0, Prepared(c, data.1, r.sector))
    ensures Servable(c, data1.0, data1.1, r)
    ensures Obey(Built(c, r), data1.0, data1.1) == Some(Serve(c, data1.0, data1.1, r))
  {
    Obeys(c, data.0, data.1[c.status := 0xFF], r);
    BuiltIs(c, r);
  }

  /** What the device makes of the prepared data: the request served, or a failure that shows. */
  lemma DoneServes(c: Setting, r: Request, data: Data, data1: Data, fault: Option<Data -> Data>)
    returns (after: Data)
    requires Meets(c, r, data) && data1 == (data.0, Prepared(c, data.1, r.sector)) && Harmless(c, r, fault)
    ensures after == Done(fault, Built(c, r), data1) && NearBy(c, r, data, after)
    ensures StatusOk(c, after) <==> fault.None?
    ensures fault.None? ==> ServedAs(c, r, data, after)
  {
    after := Done(fault, Built(c, r), data1);
    PreparedNear(c, r, data, data1);
    if fault.None? {
      ObeysPrepared(c, r, data, data1);
      var s, s1 := NearServes(c, r, data.0, data.1, data1.0, data1.1, r.sector * 512, r.count * 512);
    } else {
      assert FailedAs(c, r, data1, after);
      NearTwice(c, r.sector * 512, r.addr, r.count * 512, data.0, data.1, data1.0, data1.1, after.0, after.1);
    }
  }

  lemma BuiltPlain(c: Setting, r: Request)
    requires c.sizeMax > 0
    ensures Built(c, r) != [] && Plain(Built(c, r))
  {
    var pieces := Cut(r.addr, r.count * 512 % 0x1_0000_0000, c.sizeMax);
    DataChainIs(c.kind, pieces);
    assert !HasNext(F_WRITE) && !HasNext(0);
  }

  /**
   One attempt. It succeeds exactly when the chain fits the queue, the wait is timely and
   the device does not fail; then the request has been served. However it ends, nothing
   has been touched but what the request works on.
   */
  lemma OnceServes(c: Setting, r: Request, b: Bench, t: Trial)
    requires Quiet(b.s.m) && Meets(c, r, b.data) && Careful(t) && Harmless(c, r, t.fault)
    ensures var (b', rc) := OnceOn(c, r, b, t);
      && rc == Verdict(b.s, Built(c, r), t.a, t.fault.Some?) && NearBy(c, r, b.data, b'.data)
      && (rc != TimedOut ==> Quiet(b'.s.m)) && (rc == Success ==> ServedAs(c, r, b.data, b'.data))
  {
    var segs, data1 := Built(c, r), (b.data.0, Prepared(c, b.data.1, r.sector));
    BuiltPlain(c, r);
    PreparedNear(c, r, b.data, data1);
    SendEnds(b.s.m, segs);
    if |segs| <= b.s.m.q.size {
      var after := DoneServes(c, r, b.data, data1, t.fault);
      var b1, h := SentLive(b, segs, data1, after);
      var w := Way(h, b.s.m.q.size, b.s.completions, segs, data1, after);
      WaitServes(b1, t, w);
      LateServes(WaitOn(b1, t).0, t, w);
      WaitOver(b1, t);
      var early := WaitEnds(b1.s, t.a, h, w.size, w.c);
    }
  }

  lemma SentLive(b: Bench, segs: seq<Seg>, data: Data, after: Data) returns (b1: Bench, h: nat)
    requires Quiet(b.s.m) && segs != [] && Plain(segs) && |segs| <= b.s.m.q.size
    ensures Act(b.s.m, SubmitMany(segs)).1 == Handle(h)
    ensures b1 == Bench(b.s.(m := Act(b.s.m, SubmitMany(segs)).0), data)
    ensures Live(b1, Way(h, b.s.m.q.size, b.s.completions, segs, data, after))
  {
    SentFound(b.s.m, segs);
    var sent := Act(b.s.m, SubmitMany(segs));
    b1, h := Bench(b.s.(m := sent.0), data), sent.1.head;
  }

  // ---------------------------------------------------------------------
  // Retries
  // ---------------------------------------------------------------------

  ghost function CalmBy(c: Setting, r: Request, data: Data): (p: Bench -> bool) {
    (b: Bench) => Quiet(b.s.m) && NearBy(c, r, data, b.data)
  }

  ghost function NearOf(c: Setting, r: Request, data: Data): (p: Bench -> bool) {
    (b: Bench) => NearBy(c, r, data, b.data)
  }

  ghost function ServedOf(c: Setting, r: Request, data: Data): (p: Bench -> bool) {
    (b: Bench) => ServedAs(c, r, data, b.data)
  }

  /** An attempt after others leaves what a first one would. */
  lemma OnceMore(c: Setting, r: Request, data: Data, b: Bench, t: Trial)
    requires Quiet(b.s.m) && NearBy(c, r, data, b.data) && Meets(c, r, data) && Careful(t) && Harmless(c, r, t.fault)
    ensures Attempted(OnceOn(c, r, b, t), CalmBy(c, r, data), NearOf(c, r, data), ServedOf(c, r, data))
  {
    var at, n := r.sector * 512, r.count * 512;
    var s, s1 := NearServes(c, r, data.0, data.1, b.data.0, b.data.1, at, n);
    OnceServes(c, r, b, t);
    var b' := OnceOn(c, r, b, t).0;
    NearTwice(c, at, r.addr, n, data.0, data.1, b.data.0, b.data.1, b'.data.0, b'.data.1);
  }

  lemma TrialsAttempt(c: Setting, r: Request, data: Data, tries: seq<Trial>)
    requires Meets(c, r, data) && Fair(c, r, tries)
    ensures Attempts(OnceOnOf(c, r), ResetOn(), CalmBy(c, r, data), NearOf(c, r, data), ServedOf(c, r, data), tries)
  {
    var calm, near, served := CalmBy(c, r, data), NearOf(c, r, data), ServedOf(c, r, data);
    forall b, i | 0 <= i < |tries| && calm(b) ensures Attempted(OnceOnOf(c, r)(b, tries[i]), calm, near, served) {
      OnceMore(c, r, data, b, tries[i]);
    }
    forall b, i | 0 <= i < |tries| && near(b) && ResetOn()(b, tries[i]).Some?
      ensures calm(ResetOn()(b, tries[i]).value)
    {
      RebuiltQuiet(tries[i].a.reset.value);
    }
  }

  /** The attempts without the data. */
  ghost function Plans(tries: seq<Trial>): (r: seq<Attempt>)
    ensures |r| == |tries|
  {
    seq(|tries|, i requires 0 <= i < |tries| => tries[i].a)
  }

  ghost function Faulty(tries: seq<Trial>): (f: nat -> bool) {
    (i: nat) => i < |tries| && tries[i].fault.Some?
  }

  ghost predicate Calm(c: Setting, r: Request, data: Data, b: Bench) { Quiet(b.s.m) && NearBy(c, r, data, b.data) }

  ghost function CalmAt(c: Setting, r: Request, s: Station, data: Data, plans: seq<Attempt>)
    : (f: (nat, Bench) -> bool)
  {
    (i: nat, b: Bench) => i <= |plans| && b.s == StationAt(s, plans, i) && Calm(c, r, data, b)
  }

  lemma TrialsDecide(c: Setting, r: Request, s: Station, data: Data, tries: seq<Trial>, plans: seq<Attempt>,
                     faulty: nat -> bool)
    requires Meets(c, r, data) && Fair(c, r, tries) && plans == Plans(tries) && faulty == Faulty(tries)
    ensures Decides(OnceOnOf(c, r), ResetOn(), VerdictAt(s, Built(c, r), plans, faulty), ClearedAt(plans),
                    CalmAt(c, r, s, data, plans), tries)
  {
    var verdict, at := VerdictAt(s, Built(c, r), plans, faulty), CalmAt(c, r, s, data, plans);
    forall i: nat, b | i < |tries| && at(i, b)
      ensures Decided(OnceOnOf(c, r), ResetOn(), verdict, ClearedAt(plans), at, tries, i, b)
    {
      OneDecides(c, r, s, data, tries, plans, faulty, i, b);
    }
  }

  lemma OneDecides(c: Setting, r: Request, s: Station, data: Data, tries: seq<Trial>, plans: seq<Attempt>,
                   faulty: nat -> bool, i: nat, b: Bench)
    requires Meets(c, r, data) && Fair(c, r, tries) && plans == Plans(tries) && faulty == Faulty(tries)
    requires i < |tries| && CalmAt(c, r, s, data, plans)(i, b)
    ensures Decided(OnceOnOf(c, r), ResetOn(), VerdictAt(s, Built(c, r), plans, faulty), ClearedAt(plans),
                    CalmAt(c, r, s, data, plans), tries, i, b)
  {
    CalmAtIs(c, r, s, data, plans, i, b);
    var x := TrialDecided(c, r, s, data, tries, plans, i, b);
    var b' := NextTrial(c, r, s, data, plans, i, x.0);
    FactsAt(s, Built(c, r), tries, plans, faulty, i, b.s, x.1);
    DecidedBy(OnceOnOf(c, r), ResetOn(), VerdictAt(s, Built(c, r), plans, faulty), ClearedAt(plans),
              CalmAt(c, r, s, data, plans), tries, i, b, x, b');
  }

  lemma CalmAtIs(c: Setting, r: Request, s: Station, data: Data, plans: seq<Attempt>, i: nat, b: Bench)
    ensures CalmAt(c, r, s, data, plans)(i, b) <==> i <= |plans| && b.s == StationAt(s, plans, i) && Calm(c, r, data, b)
  {
  }

  lemma NextTrial(c: Setting, r: Request, s: Station, data: Data, plans: seq<Attempt>, i: nat, b: Bench)
    returns (b': Bench)
    requires i < |plans| && (plans[i].reset.Some? ==> Calm(c, r, data, b.(s := plans[i].reset.value)))
    ensures b' == (if plans[i].reset.Some? then b.(s := plans[i].reset.value) else b)
    ensures plans[i].reset.Some? ==> CalmAt(c, r, s, data, plans)(i + 1, b')
  {
    b' := if plans[i].reset.Some? then b.(s := plans[i].reset.value) else b;
    CalmAtIs(c, r, s, data, plans, i + 1, b');
  }

  lemma FactsAt(s: Station, segs: seq<Seg>, tries: seq<Trial>, plans: seq<Attempt>, faulty: nat -> bool, i: nat,
                at: Station, rc: Rc)
    requires plans == Plans(tries) && faulty == Faulty(tries) && i < |tries| && at == StationAt(s, plans, i)
    requires rc == Verdict(at, segs, plans[i], tries[i].fault.Some?)
    ensures rc == VerdictAt(s, segs, plans, faulty)(i) && (ClearedAt(plans)(i) <==> plans[i].reset.Some?)
  {
  }

  lemma TrialDecided(c: Setting, r: Request, s: Station, data: Data, tries: seq<Trial>, plans: seq<Attempt>, i: nat,
                     b: Bench)
    returns (x: (Bench, Rc))
    requires Meets(c, r, data) && Fair(c, r, tries) && i < |tries| && plans == Plans(tries)
    requires b.s == StationAt(s, plans, i) && Calm(c, r, data, b)
    ensures x == OnceOn(c, r, b, tries[i]) && x.1 == Verdict(b.s, Built(c, r), plans[i], tries[i].fault.Some?)
    ensures x.1 != NoDevice && NearBy(c, r, data, x.0.data)
    ensures plans[i].reset.None? ==> ResetOn()(x.0, tries[i]) == None
    ensures plans[i].reset.Some? ==>
      var b' := x.0.(s := plans[i].reset.value); ResetOn()(x.0, tries[i]) == Some(b') && Calm(c, r, data, b')
  {
    x := OnceOn(c, r, b, tries[i]);
    OnceMore(c, r, data, b, tries[i]);
    var s1, s2 := NearServes(c, r, data.0, data.1, b.data.0, b.data.1, r.sector * 512, r.count * 512);
    OnceServes(c, r, b, tries[i]);
    VerdictNever(b.s, Built(c, r), plans[i], tries[i].fault.Some?);
    if plans[i].reset.Some? { RebuiltQuiet(plans[i].reset.value); }
  }

  /** Which answer the request gets: that of the first attempt that does not time out, each before it reset. */
  lemma RetryDecides(c: Setting, r: Request, d: Driver<Bench>, tries: seq<Trial>) returns (n: nat)
    requires d.initialized && Quiet(d.m.s.m) && Meets(c, r, d.m.data) && Fair(c, r, tries)
    ensures Answered(d.m.s, Built(c, r), Plans(tries), Faulty(tries), n, RetryOn(c, r, d, tries).1)
  {
    var plans, faulty, data := Plans(tries), Faulty(tries), d.m.data;
    var at := CalmAt(c, r, d.m.s, data, plans);
    TrialsDecide(c, r, d.m.s, data, tries, plans, faulty);
    assert at(0, d.m) by { assert StationAt(d.m.s, plans, 0) == d.m.s && Calm(c, r, data, d.m); }
    n := RetryAnswers(OnceOnOf(c, r), ResetOn(), VerdictAt(d.m.s, Built(c, r), plans, faulty), ClearedAt(plans), at, d,
                      tries, 0);
    AnsweredIs(d.m.s, Built(c, r), plans, faulty, n, RetryOn(c, r, d, tries).1);
  }

  /** Some attempt fits the queue, is on time and does not fail, and all before it timed out and were reset. */
  ghost predicate Wins(c: Setting, r: Request, s: Station, tries: seq<Trial>)
    requires c.sizeMax > 0
  {
    exists n: nat :: Answered(s, Built(c, r), Plans(tries), Faulty(tries), n, Success)
  }

  /**
   A request under the policy. It answers what the first attempt answers that does not time
   out, each before it reset. Success means it has been served, exactly once as far as disk
   and buffer show, however many attempts the device carried out before. Otherwise only the
   places it works on may have changed. Either way the queue is quiet or the device
   uninitialised.
   */
  lemma RetryServes(c: Setting, r: Request, d: Driver<Bench>, tries: seq<Trial>) returns (n: nat)
    requires d.initialized && Quiet(d.m.s.m) && Meets(c, r, d.m.data) && Fair(c, r, tries)
    ensures var (d', rc) := RetryOn(c, r, d, tries);
      && Answered(d.m.s, Built(c, r), Plans(tries), Faulty(tries), n, rc)
      && (rc == Success <==> Wins(c, r, d.m.s, tries))
      && NearBy(c, r, d.m.data, d'.m.data) && (rc == Success ==> ServedAs(c, r, d.m.data, d'.m.data))
      && (d'.initialized ==> Quiet(d'.m.s.m)) && (rc == NoDevice <==> !d'.initialized)
  {
    TrialsAttempt(c, r, d.m.data, tries);
    RetryEnds(OnceOnOf(c, r), ResetOn(), CalmBy(c, r, d.m.data), NearOf(c, r, d.m.data), ServedOf(c, r, d.m.data), d,
              tries, 0);
    n := RetryDecides(c, r, d, tries);
    WinsIff(c, r, d.m.s, tries, n, RetryOn(c, r, d, tries).1);
  }

  lemma WinsIff(c: Setting, r: Request, s: Station, tries: seq<Trial>, n: nat, rc: Rc)
    requires c.sizeMax > 0 && Answered(s, Built(c, r), Plans(tries), Faulty(tries), n, rc)
    ensures rc == Success <==> Wins(c, r, s, tries)
  {
    if Wins(c, r, s, tries) {
      var n': nat :| Answered(s, Built(c, r), Plans(tries), Faulty(tries), n', Success);
      AnsweredOnce(s, Built(c, r), Plans(tries), Faulty(tries), n, rc, n', Success);
    }
  }

  // ---------------------------------------------------------------------
  // Whole transfers
  // ---------------------------------------------------------------------

  /** The requests of a transfer one after the other, each with its own attempts, up to the first that fails. */
  ghost function Carry(c: Setting, d: Driver<Bench>, reqs: seq<Request>, tries: seq<seq<Trial>>)
    : (x: (Driver<Bench>, Rc))
    requires c.sizeMax > 0 && |reqs| <= |tries|
    decreases |reqs|
  {
    if reqs == [] then (d, Success) else
      var x := RetryOn(c, reqs[0], d, tries[0]);
      if x.1 != Success then x else Carry(c, x.0, reqs[1..], tries[1..])
  }

  /** What the requests answer. */
  ghost function Answers(c: Setting, d: Driver<Bench>, reqs: seq<Request>, tries: seq<seq<Trial>>): (a: seq<Rc>)
    requires c.sizeMax > 0 && |reqs| <= |tries|
    ensures |a| == |reqs|
    decreases |reqs|
  {
    if reqs == [] then [] else
      var x := RetryOn(c, reqs[0], d, tries[0]);
      [x.1] + Answers(c, x.0, reqs[1..], tries[1..])
  }

  /** Every request succeeds, each from the station the ones before it leave. */
  ghost predicate AllWin(c: Setting, d: Driver<Bench>, reqs: seq<Request>, tries: seq<seq<Trial>>)
    requires c.sizeMax > 0 && |reqs| <= |tries|
    decreases |reqs|
  {
    reqs != [] ==>
      && Wins(c, reqs[0], d.m.s, tries[0])
      && AllWin(c, RetryOn(c, reqs[0], d, tries[0]).0, reqs[1..], tries[1..])
  }

  /** The loop that issues requests until one fails, here the k-th, returns what the transfer returns. */
  lemma {:induction false} CarryAnswers(c: Setting, d: Driver<Bench>, reqs: seq<Request>, tries: seq<seq<Trial>>,
                                        k: nat)
    requires c.sizeMax > 0 && k < |reqs| <= |tries|
    requires var a := Answers(c, d, reqs, tries);
      (forall i :: 0 <= i < k ==> a[i] == Success) && (k + 1 < |reqs| ==> a[k] != Success)
    ensures Carry(c, d, reqs, tries).1 == Answers(c, d, reqs, tries)[k]
    decreases |reqs|
  {
    var x, rest, later, a, a' := AnswersNext(c, d, reqs, tries);
    if k > 0 {
      assert a[0] == Success;
      forall i | 0 <= i < k - 1 ensures a'[i] == Success { assert a'[i] == a[i + 1]; }
      assert a'[k - 1] == a[k];
      CarryAnswers(c, x.0, rest, later, k - 1);
    }
  }

  lemma AnswersNext(c: Setting, d: Driver<Bench>, reqs: seq<Request>, tries: seq<seq<Trial>>)
    returns (x: (Driver<Bench>, Rc), rest: seq<Request>, later: seq<seq<Trial>>, a: seq<Rc>, a': seq<Rc>)
    requires c.sizeMax > 0 && 0 < |reqs| <= |tries|
    ensures rest == reqs[1..] && later == tries[1..]
    ensures a == Answers(c, d, reqs, tries) == [x.1] + a' && a' == Answers(c, x.0, rest, later)
    ensures Carry(c, d, reqs, tries) == if x.1 == Success then Carry(c, x.0, rest, later) else x
  {
    x, rest, later := RetryOn(c, reqs[0], d, tries[0]), reqs[1..], tries[1..];
    a, a' := Answers(c, d, reqs, tries), Answers(c, x.0, rest, later);
  }

  ghost predicate AllFair(c: Setting, reqs: seq<Request>, tries: seq<seq<Trial>>) {
    |reqs| <= |tries| && forall i :: 0 <= i < |reqs| ==> Fair(c, reqs[i], tries[i])
  }

  /** Room for a transfer, its words apart from each other, and its numbers within their widths. */
  ghost predicate Admits(c: Setting, data: Data, sector: nat, buf: nat, count: nat, most: nat) {
    && Roomy(c, data.0, data.1, sector, buf, count) && Clear(c, buf, count * 512) && most > 0
    && Min(count, most) * 512 < 0x1_0000_0000 && sector + count <= 0x1_0000_0000_0000_0000
  }

  /** The first request of a transfer can be carried out, and on data of the same size so can the rest. */
  lemma AdmitsFirst(c: Setting, data: Data, data': Data, sector: nat, buf: nat, count: nat, most: nat, rest: nat,
                    r: Request)
    requires Admits(c, data, sector, buf, count, most) && rest < count && count - rest == Min(count, most)
    requires r == Request(sector, buf, count - rest) && |data'.0| == |data.0| && |data'.1| == |data.1|
    ensures Meets(c, r, data) && Admits(c, data', sector + r.count, buf + r.count * 512, rest, most)
  {
    RoomFirst(c, data.0, data.1, sector, buf, count, r);
    RoomLeft(c, data.0, data.1, data'.0, data'.1, sector, buf, count, r.count);
    ClearLeft(c, buf, count, r.count);
  }

  lemma FairLater(c: Setting, reqs: seq<Request>, tries: seq<seq<Trial>>, i: nat)
    requires AllFair(c, reqs, tries) && i + 1 < |reqs|
    ensures Fair(c, reqs[1..][i], tries[1..][i])
  {
    assert Fair(c, reqs[i + 1], tries[i + 1]);
    assert reqs[1..][i] == reqs[i + 1] && tries[1..][i] == tries[i + 1];
  }

  lemma CarryNext(c: Setting, d: Driver<Bench>, reqs: seq<Request>, tries: seq<seq<Trial>>, r: Request,
                  rest: seq<Request>)
    returns (x: (Driver<Bench>, Rc))
    requires c.sizeMax > 0 && reqs == [r] + rest && AllFair(c, reqs, tries)
    ensures x == RetryOn(c, r, d, tries[0]) && Fair(c, r, tries[0]) && AllFair(c, rest, tries[1..])
    ensures Carry(c, d, reqs, tries) == if x.1 == Success then Carry(c, x.0, rest, tries[1..]) else x
    ensures AllWin(c, d, reqs, tries) <==> Wins(c, r, d.m.s, tries[0]) && AllWin(c, x.0, rest, tries[1..])
  {
    x := RetryOn(c, r, d, tries[0]);
    assert reqs[0] == r && reqs[1..] == rest;
    forall i | 0 <= i < |rest| ensures Fair(c, rest[i], tries[1..][i]) { FairLater(c, reqs, tries, i); }
  }

  /** A request served on memory that differs in the header leaves memory that differs in the header. */
  lemma ServedAlike(c: Setting, r: Request, data: Data, data1: Data, data2: Data) returns (s: Data)
    requires Meets(c, r, data) && data1.0 == data.0 && Alike(c, data.1, data1.1) && ServedAs(c, r, data1, data2)
    ensures s == Serve(c, data.0, data.1, r) && data2.0 == s.0 && Alike(c, s.1, data2.1)
  {
    var s1;
    s, s1 := NearServes(c, r, data.0, data.1, data1.0, data1.1, r.sector * 512, r.count * 512);
  }

  /** The first request of a transfer, and what is left of it: r is carried out and x is the outcome. */
  lemma CarryOne(c: Setting, d: Driver<Bench>, sector: nat, buf: nat, count: nat, most: nat, tries: seq<seq<Trial>>)
    returns (sector1: nat, buf1: nat, rest: nat, r: Request, reqs: seq<Request>, x: (Driver<Bench>, Rc))
    requires Admits(c, d.m.data, sector, buf, count, most) && AllFair(c, Requests(sector, buf, count, most), tries)
    requires d.initialized && Quiet(d.m.s.m) && count > 0
    ensures rest < count && r == Request(sector, buf, count - rest) && count - rest == Min(count, most)
    ensures sector1 == sector + r.count && buf1 == buf + r.count * 512
    ensures reqs == Requests(sector1, buf1, rest, most) && Requests(sector, buf, count, most) == [r] + reqs
    ensures x == RetryOn(c, r, d, tries[0]) && AllFair(c, reqs, tries[1..])
    ensures (x.0.initialized ==> Quiet(x.0.m.s.m)) && (x.1 == NoDevice <==> !x.0.initialized)
    ensures NearBy(c, r, d.m.data, x.0.m.data) && (x.1 == Success ==> ServedAs(c, r, d.m.data, x.0.m.data))
    ensures Admits(c, x.0.m.data, sector1, buf1, rest, most)
    ensures var all := Requests(sector, buf, count, most);
      && Carry(c, d, all, tries) == (if x.1 == Success then Carry(c, x.0, reqs, tries[1..]) else x)
      && (AllWin(c, d, all, tries) <==> x.1 == Success && AllWin(c, x.0, reqs, tries[1..]))
  {
    sector1, buf1, rest, reqs := RestOf(sector, buf, count, most);
    r := Request(sector, buf, count - rest);
    AdmitsFirst(c, d.m.data, d.m.data, sector, buf, count, most, rest, r);
    x := CarryNext(c, d, Requests(sector, buf, count, most), tries, r, reqs);
    var n := RetryServes(c, r, d, tries[0]);
    AdmitsFirst(c, d.m.data, x.0.m.data, sector, buf, count, most, rest, r);
  }

  /** A transfer succeeds exactly when every request does. */
  lemma {:induction false} CarryWins(c: Setting, d: Driver<Bench>, sector: nat, buf: nat, count: nat, most: nat,
                                     tries: seq<seq<Trial>>)
    requires Admits(c, d.m.data, sector, buf, count, most) && AllFair(c, Requests(sector, buf, count, most), tries)
    requires d.initialized && Quiet(d.m.s.m)
    ensures var (d', rc) := Carry(c, d, Requests(sector, buf, count, most), tries);
      && (d'.initialized ==> Quiet(d'.m.s.m)) && (rc == NoDevice <==> !d'.initialized)
      && (rc == Success <==> AllWin(c, d, Requests(sector, buf, count, most), tries))
    decreases count
  {
    if count > 0 {
      var sector1, buf1, rest, r, reqs, x := CarryOne(c, d, sector, buf, count, most, tries);
      if x.1 == Success { CarryWins(c, x.0, sector1, buf1, rest, most, tries[1..]); }
    }
  }

  /** One that succeeds has done what serving all its requests does. */
  lemma {:induction false} CarryFollows(c: Setting, d: Driver<Bench>, data: Data, sector: nat, buf: nat, count: nat,
                                        most: nat, tries: seq<seq<Trial>>)
    returns (s: Data)
    requires Admits(c, data, sector, buf, count, most) && AllFair(c, Requests(sector, buf, count, most), tries)
    requires d.initialized && Quiet(d.m.s.m) && d.m.data.0 == data.0 && Alike(c, data.1, d.m.data.1)
    ensures var (d', rc) := Carry(c, d, Requests(sector, buf, count, most), tries);
      rc == Success ==>
        && ServeAll(c, data.0, data.1, Requests(sector, buf, count, most)) == Some(s)
        && d'.m.data.0 == s.0 && Alike(c, s.1, d'.m.data.1)
    decreases count
  {
    s := data;
    if count > 0 {
      var sector1, buf1, rest, r, reqs, x := CarryOne(c, d, sector, buf, count, most, tries);
      var all := Requests(sector, buf, count, most);
      if x.1 == Success {
        AdmitsFirst(c, data, data, sector, buf, count, most, rest, r);
        var s1 := ServedAlike(c, r, data, d.m.data, x.0.m.data);
        AdmitsFirst(c, data, s1, sector, buf, count, most, rest, r);
        assert all[0] == r && all[1..] == reqs;
        ServeNext(c, data.0, data.1, all, r, s1);
        s := CarryFollows(c, x.0, s1, sector1, buf1, rest, most, tries[1..]);
      }
    }
  }

  /** However a transfer ends, nothing has been touched but what it works on. */
  lemma {:induction false} CarryNear(c: Setting, d: Driver<Bench>, sector: nat, buf: nat, count: nat, most: nat,
                                     tries: seq<seq<Trial>>)
    requires Admits(c, d.m.data, sector, buf, count, most) && AllFair(c, Requests(sector, buf, count, most), tries)
    requires d.initialized && Quiet(d.m.s.m)
    ensures var d' := Carry(c, d, Requests(sector, buf, count, most), tries).0;
      NearBy(c, Request(sector, buf, count), d.m.data, d'.m.data)
    decreases count
  {
    if count > 0 {
      var sector1, buf1, rest, r, reqs, x := CarryOne(c, d, sector, buf, count, most, tries);
      var whole := Request(sector, buf, count);
      NearWhole(c, r, whole, d.m.data, x.0.m.data);
      if x.1 == Success {
        CarryNear(c, x.0, sector1, buf1, rest, most, tries[1..]);
        var data' := Carry(c, x.0, reqs, tries[1..]).0.m.data;
        NearWhole(c, Request(sector1, buf1, rest), whole, x.0.m.data, data');
        NearAgain(c, whole, d.m.data, x.0.m.data, data');
      }
    }
  }

  lemma NearWhole(c: Setting, r: Request, whole: Request, data: Data, data': Data)
    requires NearBy(c, r, data, data') && whole.sector <= r.sector && r.sector + r.count <= whole.sector + whole.count
    requires r.addr - whole.addr == (r.sector - whole.sector) * 512
    ensures NearBy(c, whole, data, data')
  {
    NearWider(c, r.sector * 512, r.addr, r.count * 512, whole.sector * 512, whole.addr, whole.count * 512,
              data.0, data.1, data'.0, data'.1);
  }

  lemma NearAgain(c: Setting, r: Request, data: Data, data1: Data, data2: Data)
    requires NearBy(c, r, data, data1) && NearBy(c, r, data1, data2)
    ensures NearBy(c, r, data, data2)
  {
    NearTwice(c, r.sector * 512, r.addr, r.count * 512, data.0, data.1, data1.0, data1.1, data2.0, data2.1);
  }

  /**
   A transfer over the queue, the device seeing nothing but rings, table and memory. It
   succeeds exactly when every request does, and then it is exact: the sectors are in the
   buffer or the buffer in the sectors, and nothing else has changed but header and status
   byte. If it fails, nothing has changed but those and the buffer of a read or the sectors
   of a write. Either way the queue is quiet or the device uninitialised.
   */
  lemma CarryExact(c: Setting, d: Driver<Bench>, sector: nat, buf: nat, count: nat, most: nat, tries: seq<seq<Trial>>)
    returns (mem: seq<Octet>)
    requires Admits(c, d.m.data, sector, buf, count, most) && AllFair(c, Requests(sector, buf, count, most), tries)
    requires d.initialized && Quiet(d.m.s.m) && count > 0
    ensures var (d', rc) := Carry(c, d, Requests(sector, buf, count, most), tries);
      && NearBy(c, Request(sector, buf, count), d.m.data, d'.m.data)
      && (rc == Success <==> AllWin(c, d, Requests(sector, buf, count, most), tries))
      && (rc == Success ==>
          Exact(c, d.m.data.0, d.m.data.1, d'.m.data.0, mem, sector, buf, count) && Alike(c, mem, d'.m.data.1))
      && (d'.initialized ==> Quiet(d'.m.s.m)) && (rc == NoDevice <==> !d'.initialized)
  {
    CarryNear(c, d, sector, buf, count, most, tries);
    CarryWins(c, d, sector, buf, count, most, tries);
    var s := CarryFollows(c, d, d.m.data, sector, buf, count, most, tries);
    TransferExact(c, d.m.data.0, d.m.data.1, sector, buf, count, most);
    mem := s.1;
  }
}
