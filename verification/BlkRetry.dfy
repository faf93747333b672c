/**
 A block request under the timeout, retry and reset policy, on the virtqueue, in
 polling and in interrupt mode. While the driver waits the device may do anything; a
 timeout abandons the request by resetting the device and rebuilding the queue.
 */
module BlkRetry {
  import opened Arith
  import opened Common
  import opened Virtqueue
  import opened VirtqueueRuns
  import opened Blk

  /** What happens beside the driver: the device takes a step, or an interrupt is handled. */
  datatype Event = Device(step: Step) | Interrupt

  /** The queue and the handler's 32-bit count of completions. */
  datatype Station = Station(m: Machine, completions: nat)

  datatype Mode = Polling | Irq

  /**
   How one attempt goes: the mode, what happens between the doorbell and the start of
   the wait, what happens before each look of the waiting driver, the status byte the
   device leaves, and what a reset would leave, if it succeeds.
   */
  datatype Attempt = Attempt(mode: Mode, early: seq<Event>, spins: seq<seq<Event>>, status: nat, reset: Option<Station>)

  /** The driver over a queue in state m, with its statistics. */
  datatype Driver<M> = Driver(m: M, initialized: bool, timeouts: nat, resets: nat, retries: nat)

  ghost predicate Readable(r: Rings) { r.usedIdx < WRAP && r.lastUsed < WRAP }

  /** How many used entries are unread. */
  ghost function Unread(r: Rings): (n: nat)
    requires Readable(r)
  {
    if r.lastUsed <= r.usedIdx then r.usedIdx - r.lastUsed else r.usedIdx + WRAP - r.lastUsed
  }

  /** blk_handle_irq: reap until nothing comes back, counting. */
  ghost function Drain(s: Station): (s': Station)
    decreases if Readable(s.m.q.rings) then Unread(s.m.q.rings) else 0
  {
    var r := Act(s.m, Reap);
    if !Readable(s.m.q.rings) || !r.1.Returned? then s.(m := r.0)
    else
      ReapReads(s.m);
      Drain(Station(r.0, (s.completions + 1) % 0x1_0000_0000))
  }

  lemma ReapReads(m: Machine)
    requires Readable(m.q.rings) && Act(m, Reap).1.Returned?
    ensures Readable(Act(m, Reap).0.q.rings) && Unread(Act(m, Reap).0.q.rings) < Unread(m.q.rings)
  {
  }

  ghost function Fold<S, E>(step: (S, E) -> S, s: S, events: seq<E>): (s': S)
    decreases |events|
  {
    if events == [] then s else Fold(step, step(s, events[0]), events[1..])
  }

  ghost function Occur(s: Station, e: Event): (s': Station) {
    match e
    case Device(step) => s.(m := Act(s.m, step).0)
    case Interrupt => Drain(s)
  }

  ghost function Happen(s: Station, events: seq<Event>): (s': Station) { Fold(Occur, s, events) }

  ghost function ReapOne(s: Station): (r: (Station, bool)) {
    var reaped := Act(s.m, Reap);
    (s.(m := reaped.0), reaped.1.Returned?)
  }

  /** A look after the events of one spin: `see` says whether something has come back. */
  ghost function Looking<S, E>(step: (S, E) -> S, see: S -> (S, bool)): (f: (S, seq<E>) -> (S, bool)) {
    (s: S, events: seq<E>) => see(Fold(step, s, events))
  }

  /** The look of interrupt mode: has the count come to the target, as a signed 32-bit difference? */
  ghost function See(target: nat): (f: Station -> (Station, bool)) { (s: Station) => (s, Due(s.completions, target)) }

  ghost predicate Due(completions: nat, target: nat) { (completions - target) % 0x1_0000_0000 < 0x8000_0000 }

  /** The counters wrap, so k completions past the target count as due for k up to half the range. */
  lemma DueIff(target: nat, k: nat)
    requires target < 0x1_0000_0000 && k < 0x1_0000_0000
    ensures Due((target + k) % 0x1_0000_0000, target) <==> k < 0x8000_0000
  {
  }

  /** Look once per entry of `spins`, until something has come back. */
  ghost function PollAll<M, S>(poll: (M, S) -> (M, bool), m: M, spins: seq<S>): (r: (M, bool))
    decreases |spins|
  {
    if spins == [] then (m, false)
    else if poll(m, spins[0]).1 then (poll(m, spins[0]).0, true)
    else PollAll(poll, poll(m, spins[0]).0, spins[1..])
  }

  /** blk_wait_one. In interrupt mode the target is read off the count as the wait finds it. */
  ghost function Wait(s: Station, a: Attempt): (r: (Station, bool)) {
    var s1 := Happen(s, a.early);
    PollAll(Looking(Occur, SeeIn(a.mode, s1.completions)), s1, a.spins)
  }

  /** blk_submit_once. */
  ghost function Once(s: Station, segs: seq<Seg>, a: Attempt): (r: (Station, Rc)) {
    var sent := Act(s.m, SubmitMany(segs));
    if sent.1 == Full then (s.(m := sent.0), NoSpace) else
      var waited := Wait(s.(m := sent.0), a);
      (waited.0, if !waited.1 then TimedOut else if a.status != 0 then IoError else Success)
  }

  /**
   blk_submit_retry from attempt k on; there are as many attempts as `tries`. `once`
   makes an attempt and `reset` says what resetting after it leaves.
   */
  ghost function Retry<M, A>(once: (M, A) -> (M, Rc), reset: (M, A) -> Option<M>, d: Driver<M>, tries: seq<A>,
                             k: nat): (r: (Driver<M>, Rc))
    requires k <= |tries|
    decreases |tries| - k
  {
    if k == |tries| then (d, TimedOut) else
      var (m, rc) := once(d.m, tries[k]);
      if rc != TimedOut then (Counted(d, k).(m := m), rc)
      else match reset(m, tries[k])
        case None => (Again(d, m, k).(initialized := false), NoDevice)
        case Some(m') => Retry(once, reset, Again(d, m', k), tries, k + 1)
  }

  /** Attempts after the first count as retries. */
  ghost function Counted<M>(d: Driver<M>, k: nat): (d': Driver<M>) {
    if k > 0 then d.(retries := d.retries + 1) else d
  }

  /** The driver after attempt k timed out and a reset left m. */
  ghost function Again<M>(d: Driver<M>, m: M, k: nat): (d': Driver<M>) {
    Driver(m, true, d.timeouts + 1, d.resets + 1, Counted(d, k).retries)
  }

  /** The policy on the virtqueue. */
  ghost function SubmitRetry(d: Driver<Station>, segs: seq<Seg>, tries: seq<Attempt>): (r: (Driver<Station>, Rc)) {
    Retry(OnceOf(segs), ResetOf(), d, tries, 0)
  }

  /** The device fetches and publishes; the handler runs only while its line is unmasked. */
  ghost predicate Aside(e: Event, mode: Mode) {
    match e
    case Device(step) => step.Fetch? || step.Publish?
    case Interrupt => mode == Irq
  }

  ghost predicate All<E>(p: E -> bool, events: seq<E>) {
    forall i :: 0 <= i < |events| ==> p(events[i])
  }

  /** A queue as the handshake sets it up, over whatever the descriptor memory held. */
  ghost predicate Rebuilt(s: Station) {
    s.completions == 0 && exists was, size ::
      |was| == MAX_SIZE && 0 < size <= MAX_SIZE && WRAP % size == 0 && s.m == Machine(Setup(was, size), 0, {})
  }

  ghost predicate Sane(a: Attempt) {
    && All(AsideIn(a.mode), a.early) && (forall i :: 0 <= i < |a.spins| ==> All(AsideIn(a.mode), a.spins[i]))
    && (a.reset.Some? ==> Rebuilt(a.reset.value))
  }

  /** Some ledger explains the queue by exactly these outstanding requests; `Inside` brings it out. */
  ghost predicate Explained(m: Machine, open: set<nat>) {
    forall k: nat {:trigger Inside(k)} :: Inside(k) ==> exists l :: Explains(l, m, open)
  }

  ghost predicate Explains(l: Ledger, m: Machine, open: set<nat>) { Agrees(m, l) && l.books.chains.Keys == open }

  /** No request is outstanding and every descriptor is free. */
  ghost predicate Quiet(m: Machine) { Explained(m, {}) && m.q.table.numFree == m.q.size }

  /** Exactly request h is outstanding, on a queue of this size. */
  ghost predicate Pending(m: Machine, h: nat, size: nat) { Explained(m, {h}) && m.q.size == size }

  lemma Explanation(m: Machine, open: set<nat>) returns (l: Ledger)
    requires Explained(m, open)
    ensures Explains(l, m, open)
  {
    assert Inside(0);
    l :| Explains(l, m, open);
  }

  lemma ExplainedBy(m: Machine, open: set<nat>, l: Ledger)
    requires Explains(l, m, open)
    ensures Explained(m, open)
  {
  }

  lemma QuietFrom(m: Machine, l: Ledger)
    requires Agrees(m, l) && l.books.chains.Keys == {}
    ensures Quiet(m)
  {
    assert l.books.chains == map[];
    AllFree(l.books, m.q.size);
    ExplainedBy(m, {}, l);
  }

  lemma QuietIs(m: Machine)
    requires Explained(m, {})
    ensures Quiet(m)
  {
    var l := Explanation(m, {});
    QuietFrom(m, l);
  }

  /** What one step of the device leaves: the same requests outstanding. */
  lemma DeviceStep(m: Machine, step: Step, open: set<nat>)
    requires Explained(m, open) && (step.Fetch? || step.Publish?)
    ensures Act(m, step).0.q.size == m.q.size && Explained(Act(m, step).0, open)
  {
    var l := Explanation(m, open);
    StepAgrees(m, l, step);
    SizeKept(m, [step]);
    assert Run(m, [step]).0 == Act(m, step).0;
    ExplainedBy(Act(m, step).0, open, Enter(l, step).0);
  }

  /** With one request outstanding, a reap that returns something returns that request and leaves nothing. */
  lemma ReapEnds(m: Machine, h: nat, size: nat)
    requires Pending(m, h, size)
    ensures var (m', o) := Act(m, Reap);
      m'.q.size == size && if o.Returned? then Quiet(m') else Pending(m', h, size)
  {
    var l := Explanation(m, {h});
    var l' := ReapAgreed(m, l, h);
    if Act(m, Reap).1.Returned? { QuietFrom(Act(m, Reap).0, l'); } else { ExplainedBy(Act(m, Reap).0, {h}, l'); }
  }

  lemma ReapAgreed(m: Machine, l: Ledger, h: nat) returns (l': Ledger)
    requires Agrees(m, l) && l.books.chains.Keys == {h}
    ensures Act(m, Reap).0.q.size == m.q.size && Agrees(Act(m, Reap).0, l')
    ensures l'.books.chains.Keys == if Act(m, Reap).1.Returned? then {} else {h}
  {
    l' := Enter(l, Reap).0;
    StepAgrees(m, l, Reap);
    ReapKeepsSize(m);
    ReapOpen(l, h);
  }

  /** With nothing outstanding there is nothing to reap. */
  lemma ReapQuiet(m: Machine)
    requires Quiet(m)
    ensures Act(m, Reap) == (m, Idle)
  {
    var l := Explanation(m, {});
    InvBacked(m.q, l);
    ReapInv(m.q, l);
  }

  /** The used ring holds something the driver has not read. */
  ghost predicate Back(m: Machine) { Act(m, Reap).1.Returned? }

  lemma BackIs(m: Machine, l: Ledger)
    requires Agrees(m, l)
    ensures Back(m) <==> l.log.reaped < |l.log.used|
    ensures !Back(m) ==> Act(m, Reap).0 == m
  {
    StepAgrees(m, l, Reap);
    if l.log.reaped == |l.log.used| { NothingNew(m, l); } else { SomethingNew(l, m.q.size); }
  }

  lemma NothingNew(m: Machine, l: Ledger)
    requires Agrees(m, l) && l.log.reaped == |l.log.used|
    ensures Act(m, Reap) == (m, Idle)
  {
    InvBacked(m.q, l);
    ReapInv(m.q, l);
  }

  lemma SomethingNew(l: Ledger, size: nat)
    requires Staged(l.log, l.books.chains.Keys) && l.log.reaped < |l.log.used|
    ensures EnterReap(l).1.Returned?
  {
    assert l.log.used[l.log.reaped].id in l.log.stage;
  }

  /** What is back stays back, whatever the device does, until it is reaped. */
  lemma BackStays(m: Machine, step: Step, h: nat, size: nat)
    requires Pending(m, h, size) && Back(m) && (step.Fetch? || step.Publish?)
    ensures Back(Act(m, step).0)
  {
    var l := Explanation(m, {h});
    BackIs(m, l);
    StepAgrees(m, l, step);
    BackIs(Act(m, step).0, Enter(l, step).0);
  }

  lemma NothingBack(m: Machine, h: nat, size: nat)
    requires Pending(m, h, size) && !Back(m)
    ensures Act(m, Reap).0 == m
  {
    var l := Explanation(m, {h});
    BackIs(m, l);
  }

  /** With a request outstanding some descriptor is not free. */
  lemma PendingBusy(m: Machine, h: nat, size: nat)
    requires Pending(m, h, size)
    ensures !Quiet(m)
  {
    var l := Explanation(m, {h});
    assert h in l.books.chains && Holds(l.books, h);
    FewerFree(l.books, m.q.size, h);
  }

  lemma FewerFree(b: Books, size: nat, h: nat)
    requires Partition(b, size) && h < size && b.owner[h] == Chained(h)
    ensures |b.free| < size
  {
    assert h !in b.free;
    DistinctConcat([h], b.free);
    DistinctBelow([h] + b.free, size);
  }

  lemma ReapOpen(l: Ledger, h: nat)
    requires l.books.chains.Keys == {h}
    ensures EnterReap(l).0.books.chains.Keys == if EnterReap(l).1.Returned? then {} else {h}
  {
  }

  lemma ReapKeepsSize(m: Machine)
    ensures Act(m, Reap).0.q.size == m.q.size
  {
  }

  /** The station with request h outstanding and c completions counted. */
  ghost predicate Waiting(s: Station, h: nat, size: nat, c: nat) { Pending(s.m, h, size) && s.completions == c }

  /** The station with nothing outstanding and c completions counted. */
  ghost predicate Settled(s: Station, size: nat, c: nat) { Quiet(s.m) && s.m.q.size == size && s.completions == c }

  /** An interrupt reaps the request, once it has come back, and counts it. */
  lemma DrainEnds(s: Station, h: nat, size: nat, c: nat) returns (back: bool)
    requires Waiting(s, h, size, c)
    ensures back <==> Back(s.m)
    ensures if back then Settled(Drain(s), size, (c + 1) % 0x1_0000_0000) else Waiting(Drain(s), h, size, c)
  {
    back := Back(s.m);
    if back { DrainBack(s, h, size, c); } else { NothingBack(s.m, h, size); }
  }

  lemma DrainBack(s: Station, h: nat, size: nat, c: nat)
    requires Waiting(s, h, size, c) && Back(s.m)
    ensures Settled(Drain(s), size, (c + 1) % 0x1_0000_0000)
  {
    ReapEnds(s.m, h, size);
    PendingReadable(s.m, h, size);
    var s1 := DrainOne(s);
    DrainQuiet(s1);
  }

  lemma DrainOne(s: Station) returns (s1: Station)
    requires Readable(s.m.q.rings) && Back(s.m)
    ensures s1 == Station(Act(s.m, Reap).0, (s.completions + 1) % 0x1_0000_0000) && Drain(s) == Drain(s1)
  {
    s1 := Station(Act(s.m, Reap).0, (s.completions + 1) % 0x1_0000_0000);
  }

  lemma PendingReadable(m: Machine, h: nat, size: nat)
    requires Pending(m, h, size)
    ensures Readable(m.q.rings)
  {
    var l := Explanation(m, {h});
    assert Windows(m.q.rings, m.q.size, l.log);
  }

  /** Later interrupts find nothing. */
  lemma DrainQuiet(s: Station)
    requires Quiet(s.m)
    ensures Drain(s) == s
  {
    ReapQuiet(s.m);
  }

  lemma SettledStep(s: Station, e: Event, size: nat, c: nat)
    requires Settled(s, size, c) && (e.Device? ==> e.step.Fetch? || e.step.Publish?)
    ensures Settled(Occur(s, e), size, c)
  {
    match e
    case Interrupt => DrainQuiet(s);
    case Device(step) =>
      DeviceStep(s.m, step, {});
      QuietIs(Act(s.m, step).0);
  }

  lemma WaitingStep(s: Station, e: Event, mode: Mode, h: nat, size: nat, c: nat) returns (back: bool)
    requires Waiting(s, h, size, c) && Aside(e, mode)
    ensures
      if back then mode == Irq && Settled(Occur(s, e), size, (c + 1) % 0x1_0000_0000)
      else Waiting(Occur(s, e), h, size, c)
  {
    match e
    case Interrupt => back := DrainEnds(s, h, size, c);
    case Device(step) =>
      back := false;
      DeviceStep(s.m, step, {h});
  }

  /** From `from` states the events allowed lead to `from` states or to `to` states. */
  ghost predicate Moves<S(!new), E(!new)>(step: (S, E) -> S, ok: E -> bool, from: S -> bool, to: S -> bool) {
    forall s, e :: from(s) && ok(e) ==> from(step(s, e)) || to(step(s, e))
  }

  /** A look leaves the request waited for, or finds it and leaves a quiet state. */
  ghost predicate Finds<S(!new)>(see: S -> (S, bool), waiting: S -> bool, quiet: S -> bool) {
    forall s :: waiting(s) ==> Polled(see(s), waiting, quiet)
  }

  ghost predicate Polled<S>(r: (S, bool), waiting: S -> bool, quiet: S -> bool) {
    (r.1 ==> quiet(r.0)) && (!r.1 ==> waiting(r.0))
  }

  /** A look finds what has been reaped. */
  ghost predicate Sees<S(!new)>(see: S -> (S, bool), reaped: S -> bool, quiet: S -> bool) {
    forall s :: reaped(s) ==> see(s).1 && quiet(see(s).0)
  }

  lemma {:induction false} FoldMoves<S(!new), E(!new)>(
    step: (S, E) -> S, ok: E -> bool, from: S -> bool, to: S -> bool, s: S, events: seq<E>)
    requires Moves(step, ok, from, to) && Moves(step, ok, to, Never()) && All(ok, events) && (from(s) || to(s))
    ensures from(Fold(step, s, events)) || to(Fold(step, s, events))
    decreases |events|
  {
    if events != [] {
      assert ok(events[0]);
      FoldMoves(step, ok, from, to, step(s, events[0]), events[1..]);
    }
  }

  /** Looking again and again ends with the request still waited for, or found and gone. */
  lemma {:induction false} PollAllEnds<S(!new), E(!new)>(
    step: (S, E) -> S, see: S -> (S, bool), ok: E -> bool, from: S -> bool, to: S -> bool, quiet: S -> bool, s: S,
    spins: seq<seq<E>>)
    requires Moves(step, ok, from, to) && Moves(step, ok, to, Never()) && Finds(see, from, quiet)
    requires Sees(see, to, quiet)
    requires from(s) && forall i :: 0 <= i < |spins| ==> All(ok, spins[i])
    ensures Polled(PollAll(Looking(step, see), s, spins), from, quiet)
    decreases |spins|
  {
    if spins != [] {
      assert All(ok, spins[0]);
      FoldMoves(step, ok, from, to, s, spins[0]);
      var r := Looking(step, see)(s, spins[0]);
      assert Polled(r, from, quiet);
      if !r.1 { PollAllEnds(step, see, ok, from, to, quiet, r.0, spins[1..]); }
    }
  }

  /** The spins one behind the other. */
  ghost function Flat<E>(spins: seq<seq<E>>): (events: seq<E>) {
    if spins == [] then [] else spins[0] + Flat(spins[1..])
  }

  lemma {:induction false} FoldConcat<S, E>(step: (S, E) -> S, s: S, a: seq<E>, b: seq<E>)
    ensures Fold(step, s, a + b) == Fold(step, Fold(step, s, a), b)
    decreases |a|
  {
    if a == [] {
      assert a + b == b;
    } else {
      assert (a + b)[1..] == a[1..] + b;
      FoldConcat(step, step(s, a[0]), a[1..], b);
    }
  }

  lemma {:induction false} FlatAll<E>(ok: E -> bool, spins: seq<seq<E>>)
    requires forall i :: 0 <= i < |spins| ==> All(ok, spins[i])
    ensures All(ok, Flat(spins))
  {
    if spins != [] {
      FlatAll(ok, spins[1..]);
      assert All(ok, spins[0]);
    }
  }

  /** A look tells whether the request is home, and leaves things as they are if it is not. */
  ghost predicate Tells<S(!new)>(see: S -> (S, bool), out: S -> bool, home: S -> bool) {
    forall s :: (out(s) ==> see(s) == (s, false) && !home(s)) && (home(s) ==> see(s).1)
  }

  /** Looking after every spin finds the request exactly when it is home in the end. */
  lemma {:induction false} LooksIff<S(!new), E(!new)>(
    step: (S, E) -> S, see: S -> (S, bool), ok: E -> bool, out: S -> bool, home: S -> bool, s: S, spins: seq<seq<E>>)
    requires Moves(step, ok, out, home) && Moves(step, ok, home, Never()) && Tells(see, out, home)
    requires (out(s) || home(s)) && forall i :: 0 <= i < |spins| ==> All(ok, spins[i])
    ensures PollAll(Looking(step, see), s, spins).1 <==> spins != [] && home(Fold(step, s, Flat(spins)))
    decreases |spins|
  {
    if spins != [] {
      assert All(ok, spins[0]);
      var s', rest := Fold(step, s, spins[0]), spins[1..];
      FoldMoves(step, ok, out, home, s, spins[0]);
      FoldConcat(step, s, spins[0], Flat(rest));
      assert Looking(step, see)(s, spins[0]) == see(s');
      if home(s') {
        FlatAll(ok, rest);
        FoldMoves(step, ok, home, Never(), s', Flat(rest));
      } else {
        LooksIff(step, see, ok, out, home, s', rest);
      }
    }
  }

  ghost function WaitingOn(h: nat, size: nat, c: nat): (p: Station -> bool) { (s: Station) => Waiting(s, h, size, c) }

  ghost function SettledOn(size: nat, c: nat): (p: Station -> bool) { (s: Station) => Settled(s, size, c) }

  /** What the handler leaves when it has reaped the request; in polling mode it never does. */
  ghost function ReapedOn(mode: Mode, size: nat, c: nat): (p: Station -> bool) {
    if mode == Irq then SettledOn(size, (c + 1) % 0x1_0000_0000) else Never()
  }

  ghost function QuietOn(size: nat): (p: Station -> bool) { (s: Station) => Quiet(s.m) && s.m.q.size == size }

  ghost function Never<S>(): (p: S -> bool) { (s: S) => false }

  ghost function AsideIn(mode: Mode): (p: Event -> bool) { (e: Event) => Aside(e, mode) }

  /** Whatever happens while a request is outstanding, it stays so, or the handler has reaped and counted it once. */
  lemma WaitingMoves(mode: Mode, h: nat, size: nat, c: nat)
    ensures Moves(Occur, AsideIn(mode), WaitingOn(h, size, c), ReapedOn(mode, size, c))
  {
    var waiting, reaped := WaitingOn(h, size, c), ReapedOn(mode, size, c);
    forall s, e | waiting(s) && AsideIn(mode)(e) ensures waiting(Occur(s, e)) || reaped(Occur(s, e)) {
      var back := WaitingStep(s, e, mode, h, size, c);
    }
  }

  lemma SettledMoves(mode: Mode, size: nat, c: nat)
    ensures Moves(Occur, AsideIn(mode), SettledOn(size, c), Never())
  {
    forall s, e | SettledOn(size, c)(s) && AsideIn(mode)(e) ensures SettledOn(size, c)(Occur(s, e)) {
      SettledStep(s, e, size, c);
    }
  }

  lemma ReapedMoves(mode: Mode, size: nat, c: nat)
    ensures Moves(Occur, AsideIn(mode), ReapedOn(mode, size, c), Never())
  {
    if mode == Irq { SettledMoves(mode, size, (c + 1) % 0x1_0000_0000); }
  }

  lemma NeverMoves(mode: Mode)
    ensures Moves(Occur, AsideIn(mode), Never(), Never())
  {
  }

  ghost function SeeIn(mode: Mode, c: nat): (f: Station -> (Station, bool)) {
    if mode == Polling then ReapOne else See((c + 1) % 0x1_0000_0000)
  }

  /** What a look finds while the request is out, once the handler has reaped it, and when that came too early. */
  lemma LookLaws(mode: Mode, h: nat, size: nat, c: nat)
    ensures Finds(SeeIn(mode, c), WaitingOn(h, size, c), QuietOn(size))
    ensures Sees(SeeIn(mode, c), ReapedOn(mode, size, c), QuietOn(size))
    ensures mode == Irq ==> Finds(SeeIn(mode, c), SettledOn(size, c), Never()) && Sees(SeeIn(mode, c), Never(), Never())
  {
    NotYetDue(c);
    if mode == Polling {
      forall s | WaitingOn(h, size, c)(s)
        ensures Polled(ReapOne(s), WaitingOn(h, size, c), QuietOn(size))
      {
        ReapEnds(s.m, h, size);
      }
    }
  }

  /** The count is at the target after one more completion and not before, across the wrap. */
  lemma NotYetDue(c: nat)
    ensures var target := (c + 1) % 0x1_0000_0000; !Due(c, target) && Due(target, target)
  {
    var q := (c + 1) / 0x1_0000_0000;
    DivModUnique(c + 1, 0x1_0000_0000, q, (c + 1) % 0x1_0000_0000);
    assert c - (c + 1) % 0x1_0000_0000 == (q - 1) * 0x1_0000_0000 + 0xFFFF_FFFF;
  }

  /**
   Whether a wait that begins in state s is to succeed. Polling, the request has come back
   by the last look. By interrupt, it is outstanding when the wait begins, and the handler
   has reaped it once everything has happened that happens before the last look.
   */
  ghost predicate Timely(s: Station, a: Attempt, h: nat, size: nat, c: nat) {
    var end := Happen(s, Flat(a.spins));
    match a.mode
    case Polling => a.spins != [] && Back(end.m)
    case Irq => Waiting(s, h, size, c) && Settled(end, size, (c + 1) % 0x1_0000_0000)
  }

  /** What a wait leaves: s1 is the state it begins in, r what it returns. */
  ghost predicate Left(s1: Station, r: (Station, bool), mode: Mode, h: nat, size: nat, c: nat, early: bool) {
    if early then
      mode == Irq && Settled(s1, size, (c + 1) % 0x1_0000_0000) && !r.1 && Settled(r.0, size, s1.completions)
    else Waiting(s1, h, size, c) && if r.1 then Quiet(r.0.m) && r.0.m.q.size == size else Waiting(r.0, h, size, c)
  }

  /**
   A wait succeeds exactly when it is timely, and then leaves nothing outstanding, in
   either mode. One that times out leaves the request outstanding, but for one case: in
   interrupt mode the handler may have reaped it before the wait read its target.
   */
  lemma WaitEnds(s: Station, a: Attempt, h: nat, size: nat, c: nat) returns (early: bool)
    requires Waiting(s, h, size, c) && Sane(a)
    ensures Left(Happen(s, a.early), Wait(s, a), a.mode, h, size, c, early)
    ensures Wait(s, a).1 <==> Timely(Happen(s, a.early), a, h, size, c)
    ensures !Wait(s, a).1 ==> (Quiet(Wait(s, a).0.m) <==> Settled(Happen(s, a.early), size, (c + 1) % 0x1_0000_0000))
  {
    early := WaitLeaves(s, a, h, size, c);
    LeftQuiet(Happen(s, a.early), Wait(s, a), a.mode, h, size, c, early);
    if early { NotBoth(Happen(s, a.early), h, size, c); } else { TimelyIff(Happen(s, a.early), a, h, size, c); }
  }

  lemma WaitLeaves(s: Station, a: Attempt, h: nat, size: nat, c: nat) returns (early: bool)
    requires Waiting(s, h, size, c) && Sane(a)
    ensures Left(Happen(s, a.early), Wait(s, a), a.mode, h, size, c, early)
  {
    early := EarlyEnds(s, a, h, size, c);
    var s1 := Happen(s, a.early);
    if early { WaitsInVain(s1, a, size, s1.completions); } else { WaitsOn(s1, a, h, size, c); }
  }

  /** A timeout leaves the queue quiet exactly when the request was reaped before the wait. */
  lemma LeftQuiet(s1: Station, r: (Station, bool), mode: Mode, h: nat, size: nat, c: nat, early: bool)
    requires Left(s1, r, mode, h, size, c, early)
    ensures !r.1 ==> (Quiet(r.0.m) <==> Settled(s1, size, (c + 1) % 0x1_0000_0000))
  {
    if !early {
      PendingBusy(s1.m, h, size);
      if !r.1 { PendingBusy(r.0.m, h, size); }
    }
  }

  lemma TimelyIff(s: Station, a: Attempt, h: nat, size: nat, c: nat)
    requires Waiting(s, h, size, c) && Sane(a)
    ensures PollAll(Looking(Occur, SeeIn(a.mode, c)), s, a.spins).1 <==> Timely(s, a, h, size, c)
  {
    if a.mode == Polling { PollsIff(s, a, h, size, c); } else { AwaitsIff(s, a, h, size, c); }
  }

  lemma NotBoth(s: Station, h: nat, size: nat, c: nat)
    requires Quiet(s.m)
    ensures !Waiting(s, h, size, c)
  {
    if Waiting(s, h, size, c) { PendingBusy(s.m, h, size); }
  }

  /** By interrupt the looks find the request exactly when the handler has reaped it by the last. */
  lemma AwaitsIff(s: Station, a: Attempt, h: nat, size: nat, c: nat)
    requires Waiting(s, h, size, c) && Sane(a) && a.mode == Irq
    ensures PollAll(Looking(Occur, SeeIn(a.mode, c)), s, a.spins).1
      <==> Settled(Happen(s, Flat(a.spins)), size, (c + 1) % 0x1_0000_0000)
  {
    var out, home := WaitingOn(h, size, c), ReapedOn(a.mode, size, c);
    WaitingMoves(a.mode, h, size, c);
    ReapedMoves(a.mode, size, c);
    CountTells(h, size, c);
    assert out(s);
    LooksIff(Occur, SeeIn(a.mode, c), AsideIn(a.mode), out, home, s, a.spins);
    SettledOnIs(size, c, Happen(s, Flat(a.spins)));
  }

  lemma CountTells(h: nat, size: nat, c: nat)
    ensures Tells(SeeIn(Irq, c), WaitingOn(h, size, c), ReapedOn(Irq, size, c))
  {
    var see, out, home := SeeIn(Irq, c), WaitingOn(h, size, c), ReapedOn(Irq, size, c);
    NotYetDue(c);
    forall x: Station ensures (out(x) ==> see(x) == (x, false) && !home(x)) && (home(x) ==> see(x).1) {
      if out(x) { PendingBusy(x.m, h, size); }
    }
  }

  lemma SettledOnIs(size: nat, c: nat, s: Station)
    ensures ReapedOn(Irq, size, c)(s) <==> Settled(s, size, (c + 1) % 0x1_0000_0000)
  {
  }

  ghost function OutOn(h: nat, size: nat, c: nat): (p: Station -> bool) {
    (s: Station) => Waiting(s, h, size, c) && !Back(s.m)
  }

  ghost function HomeOn(h: nat, size: nat, c: nat): (p: Station -> bool) {
    (s: Station) => Waiting(s, h, size, c) && Back(s.m)
  }

  lemma HomeMoves(h: nat, size: nat, c: nat)
    ensures Moves(Occur, AsideIn(Polling), OutOn(h, size, c), HomeOn(h, size, c))
    ensures Moves(Occur, AsideIn(Polling), HomeOn(h, size, c), Never())
  {
    forall s, e | Waiting(s, h, size, c) && AsideIn(Polling)(e)
      ensures Waiting(Occur(s, e), h, size, c) && (Back(s.m) ==> Back(Occur(s, e).m))
    {
      var back := WaitingStep(s, e, Polling, h, size, c);
      if Back(s.m) { BackStays(s.m, e.step, h, size); }
    }
  }

  /** Polling, the looks find the request exactly when it has come back by the last. */
  lemma PollsIff(s: Station, a: Attempt, h: nat, size: nat, c: nat)
    requires Waiting(s, h, size, c) && Sane(a) && a.mode == Polling
    ensures PollAll(Looking(Occur, SeeIn(a.mode, c)), s, a.spins).1
      <==> a.spins != [] && Back(Happen(s, Flat(a.spins)).m)
  {
    var out, home := OutOn(h, size, c), HomeOn(h, size, c);
    HomeMoves(h, size, c);
    forall x | out(x) ensures ReapOne(x) == (x, false) { NothingBack(x.m, h, size); }
    assert Tells(ReapOne, out, home);
    assert out(s) || home(s);
    LooksIff(Occur, ReapOne, AsideIn(Polling), out, home, s, a.spins);
    FlatAll(AsideIn(Polling), a.spins);
    FoldMoves(Occur, AsideIn(Polling), out, home, s, Flat(a.spins));
  }

  lemma EarlyEnds(s: Station, a: Attempt, h: nat, size: nat, c: nat) returns (early: bool)
    requires Waiting(s, h, size, c) && Sane(a)
    ensures var s1 := Happen(s, a.early);
      if early then a.mode == Irq && Settled(s1, size, (c + 1) % 0x1_0000_0000) else Waiting(s1, h, size, c)
  {
    var waiting, reaped := WaitingOn(h, size, c), ReapedOn(a.mode, size, c);
    WaitingMoves(a.mode, h, size, c);
    ReapedMoves(a.mode, size, c);
    assert waiting(s);
    FoldMoves(Occur, AsideIn(a.mode), waiting, reaped, s, a.early);
    var s1 := Happen(s, a.early);
    assert waiting(s1) || reaped(s1);
    early := !waiting(s1);
    if early { assert reaped(s1); } else { assert waiting(s1); }
  }

  lemma WaitsOn(s: Station, a: Attempt, h: nat, size: nat, c: nat)
    requires Waiting(s, h, size, c) && Sane(a)
    ensures var r := PollAll(Looking(Occur, SeeIn(a.mode, c)), s, a.spins);
      if r.1 then Quiet(r.0.m) && r.0.m.q.size == size else Waiting(r.0, h, size, c)
  {
    WaitingMoves(a.mode, h, size, c);
    ReapedMoves(a.mode, size, c);
    LookLaws(a.mode, h, size, c);
    assert WaitingOn(h, size, c)(s);
    PollAllEnds(Occur, SeeIn(a.mode, c), AsideIn(a.mode), WaitingOn(h, size, c), ReapedOn(a.mode, size, c),
                QuietOn(size), s, a.spins);
    assert Polled(PollAll(Looking(Occur, SeeIn(a.mode, c)), s, a.spins), WaitingOn(h, size, c), QuietOn(size));
  }

  /** Reaped before the wait read its target, the request is waited for in vain, however long. */
  lemma WaitsInVain(s: Station, a: Attempt, size: nat, c: nat)
    requires Settled(s, size, c) && Sane(a) && a.mode == Irq
    ensures var r := PollAll(Looking(Occur, SeeIn(a.mode, c)), s, a.spins); !r.1 && Settled(r.0, size, c)
  {
    SettledMoves(a.mode, size, c);
    NeverMoves(a.mode);
    LookLaws(a.mode, 0, size, c);
    assert SettledOn(size, c)(s);
    PollAllEnds(Occur, SeeIn(a.mode, c), AsideIn(a.mode), SettledOn(size, c), Never(), Never(), s, a.spins);
    assert Polled(PollAll(Looking(Occur, SeeIn(a.mode, c)), s, a.spins), SettledOn(size, c), Never());
  }

  /** A request just sent, fetched and published is back. */
  lemma ServedBack(m: Machine, segs: seq<Seg>, len: nat)
    requires Quiet(m) && segs != [] && Plain(segs) && |segs| <= m.q.size
    ensures var (sent, answer) := Act(m, SubmitMany(segs));
      answer.Handle? && Back(Act(Act(sent, Fetch).0, Publish(UsedElem(answer.head, len))).0)
  {
    var l := Explanation(m, {});
    assert l.books.chains == map[];
    AllFree(l.books, m.q.size);
    StepAgrees(m, l, SubmitMany(segs));
    SentQueued(m, l, segs);
    PublishedBack(Act(m, SubmitMany(segs)).0, Enter(l, SubmitMany(segs)).0, l.books.free[0], len);
  }

  /** Sent from a queue with nothing outstanding, the request is the next the device fetches. */
  lemma SentQueued(m: Machine, l: Ledger, segs: seq<Seg>)
    requires Agrees(m, l) && l.books.chains == map[] && 0 < |segs| <= |l.books.free|
    ensures var l' := Enter(l, SubmitMany(segs)).0;
      l'.log.seen < |l'.log.avail| && l'.log.avail[l'.log.seen] == l.books.free[0] && l'.log.reaped == |l'.log.used|
  {
    SomethingStaged(l.log, {});
  }

  lemma SomethingStaged(g: Log, out: set<nat>)
    requires Staged(g, out)
    ensures g.seen < |g.avail| || g.reaped < |g.used| ==> out != {}
  {
    if g.seen < |g.avail| { assert g.avail[g.seen] in out; }
    if g.reaped < |g.used| { assert g.used[g.reaped].id in out; }
  }

  lemma PublishedBack(m: Machine, l: Ledger, h: nat, len: nat)
    requires Agrees(m, l) && l.log.seen < |l.log.avail| && l.log.avail[l.log.seen] == h && l.log.reaped == |l.log.used|
    ensures Back(Act(Act(m, Fetch).0, Publish(UsedElem(h, len))).0)
  {
    var e := UsedElem(h, len);
    var m', l' := Act(m, Fetch).0, Enter(l, Fetch).0;
    StepAgrees(m, l, Fetch);
    StepAgrees(m', l', Publish(e));
    assert Enter(l', Publish(e)).0.log.used == l.log.used + [e];
    BackIs(Act(m', Publish(e)).0, Enter(l', Publish(e)).0);
  }

  /**
   It happens on every quiet queue: the device serves the request and the interrupt is
   handled between the doorbell and the wait. The attempt times out, however long it
   waits, and the queue is quiet.
   */
  lemma EarlyReapHappens(s: Station, segs: seq<Seg>, len: nat, a: Attempt)
    requires Quiet(s.m) && segs != [] && Plain(segs) && |segs| <= s.m.q.size && Sane(a) && a.mode == Irq
    requires var head := Act(s.m, SubmitMany(segs)).1;
      head.Handle? && a.early == [Device(Fetch), Device(Publish(UsedElem(head.head, len))), Interrupt]
    ensures Once(s, segs, a).1 == TimedOut && Quiet(Once(s, segs, a).0.m)
  {
    SendEnds(s.m, segs);
    ServedBack(s.m, segs, len);
    var (m1, answer) := Act(s.m, SubmitMany(segs));
    var s1 := s.(m := m1);
    var h, size, c := answer.head, s.m.q.size, s.completions;
    EarlySettled(s1, a.early, h, len, size, c);
    var early := WaitEnds(s1, a, h, size, c);
    NotBoth(Happen(s1, a.early), h, size, c);
  }

  lemma EarlySettled(s: Station, events: seq<Event>, h: nat, len: nat, size: nat, c: nat)
    requires Waiting(s, h, size, c) && events == [Device(Fetch), Device(Publish(UsedElem(h, len))), Interrupt]
    requires Back(Act(Act(s.m, Fetch).0, Publish(UsedElem(h, len))).0)
    ensures Settled(Happen(s, events), size, (c + 1) % 0x1_0000_0000)
  {
    var served := Publish(UsedElem(h, len));
    DeviceStep(s.m, Fetch, {h});
    var m2 := Act(s.m, Fetch).0;
    DeviceStep(m2, served, {h});
    var s3 := s.(m := Act(m2, served).0);
    var back := DrainEnds(s3, h, size, c);
    FoldThree(Occur, s, Device(Fetch), Device(served), Interrupt);
  }

  lemma FoldThree<S, E>(step: (S, E) -> S, s: S, a: E, b: E, c: E)
    ensures Fold(step, s, [a, b, c]) == step(step(step(s, a), b), c)
  {
    assert [a, b, c][1..] == [b, c] && [b, c][1..] == [c] && [c][1..] == [];
    assert Fold(step, step(step(s, a), b), [c]) == step(step(step(s, a), b), c);
  }

  /** So on a queue just set up, with a request of one segment. */
  lemma EarlyReapAtStart(was: seq<Desc>, seg: Seg, spins: seq<seq<Event>>)
    requires |was| == MAX_SIZE && !HasNext(seg.flags) && forall i :: 0 <= i < |spins| ==> All(AsideIn(Irq), spins[i])
    ensures var s := Station(Machine(Setup(was, 2), 0, {}), 0);
      var a := Attempt(Irq, [Device(Fetch), Device(Publish(UsedElem(0, 0))), Interrupt], spins, 0, None);
      Once(s, [seg], a).1 == TimedOut && Quiet(Once(s, [seg], a).0.m)
  {
    var s := Station(Machine(Setup(was, 2), 0, {}), 0);
    var a := Attempt(Irq, [Device(Fetch), Device(Publish(UsedElem(0, 0))), Interrupt], spins, 0, None);
    SetupAgrees(was, 2);
    QuietFrom(s.m, Open(2));
    StepAgrees(s.m, Open(2), SubmitMany([seg]));
    assert Enter(Open(2), SubmitMany([seg])).1 == Handle(0);
    EarlyReapHappens(s, [seg], 0, a);
  }

  /** The wait for the chain of an attempt from station s is timely. */
  ghost predicate OnTime(s: Station, segs: seq<Seg>, a: Attempt) {
    var (m, answer) := Act(s.m, SubmitMany(segs));
    answer.Handle? && Timely(Happen(s.(m := m), a.early), a, answer.head, s.m.q.size, s.completions)
  }

  /** What one attempt is to answer: by the length of the chain, the time it takes, and whether the device fails. */
  ghost function Verdict(s: Station, segs: seq<Seg>, a: Attempt, failed: bool): (rc: Rc) {
    if |segs| > s.m.q.size then NoSpace
    else if !OnTime(s, segs, a) then TimedOut
    else if failed then IoError else Success
  }

  /** One attempt from a quiet queue, in either mode: what it answers, and that it ends quiet or timed out. */
  lemma OnceEnds(s: Station, segs: seq<Seg>, a: Attempt)
    requires Quiet(s.m) && segs != [] && Plain(segs) && Sane(a)
    ensures var r := Once(s, segs, a);
      && r.1 == Verdict(s, segs, a, a.status != 0)
      && (r.1 == NoSpace <==> |segs| > s.m.q.size)
      && (r.1 != TimedOut ==> Quiet(r.0.m) && r.0.m.q.size == s.m.q.size)
  {
    SendEnds(s.m, segs);
    if |segs| <= s.m.q.size {
      var sent := Act(s.m, SubmitMany(segs));
      var early := WaitEnds(s.(m := sent.0), a, sent.1.head, s.m.q.size, s.completions);
    }
  }

  /** Sending from a quiet queue: refused when the chain is longer than the queue, otherwise pending. */
  lemma SendEnds(m: Machine, segs: seq<Seg>)
    requires Quiet(m) && segs != [] && Plain(segs)
    ensures var (m', answer) := Act(m, SubmitMany(segs));
      && m'.q.size == m.q.size && (answer == Full <==> |segs| > m.q.size)
      && if answer == Full then Quiet(m') else answer.Handle? && Pending(m', answer.head, m.q.size)
  {
    var l := Explanation(m, {});
    StepAgrees(m, l, SubmitMany(segs));
    assert l.books.chains == map[];
    AllFree(l.books, m.q.size);
    var m', l' := Act(m, SubmitMany(segs)).0, Enter(l, SubmitMany(segs)).0;
    if |segs| > m.q.size {
      QuietFrom(m', l');
    } else {
      assert l'.books.chains.Keys == {l.books.free[0]};
      ExplainedBy(m', {l.books.free[0]}, l');
    }
  }

  lemma RebuiltQuiet(s: Station)
    requires Rebuilt(s)
    ensures Quiet(s.m)
  {
    var was, size :|
      |was| == MAX_SIZE && 0 < size <= MAX_SIZE && WRAP % size == 0 && s.m == Machine(Setup(was, size), 0, {});
    SetupAgrees(was, size);
    QuietFrom(s.m, Open(size));
  }

  /**
   An attempt from a quiet state ends quiet, unless it times out, and succeeds only in a
   good one; `mid` holds whatever happens, and a reset leads from there to a quiet state.
   */
  ghost predicate Attempts<M(!new), A(!new)>(once: (M, A) -> (M, Rc), reset: (M, A) -> Option<M>, quiet: M -> bool,
                                             mid: M -> bool, good: M -> bool, tries: seq<A>) {
    && (forall m :: quiet(m) ==> mid(m))
    && (forall m, i :: 0 <= i < |tries| && quiet(m) ==> Attempted(once(m, tries[i]), quiet, mid, good))
    && (forall m, i :: 0 <= i < |tries| && mid(m) && reset(m, tries[i]).Some? ==> quiet(reset(m, tries[i]).value))
  }

  ghost predicate Attempted<M>(r: (M, Rc), quiet: M -> bool, mid: M -> bool, good: M -> bool) {
    r.1 != NoDevice && mid(r.0) && (r.1 != TimedOut ==> quiet(r.0)) && (r.1 == Success ==> good(r.0))
  }

  /** What the policy leaves, given what each attempt and each reset does. */
  lemma {:induction false} RetryEnds<M(!new), A(!new)>(
    once: (M, A) -> (M, Rc), reset: (M, A) -> Option<M>, quiet: M -> bool, mid: M -> bool, good: M -> bool,
    d: Driver<M>, tries: seq<A>, k: nat)
    requires d.initialized && quiet(d.m) && k <= |tries| && Attempts(once, reset, quiet, mid, good, tries)
    ensures var (d', rc) := Retry(once, reset, d, tries, k);
      && mid(d'.m) && (d'.initialized ==> quiet(d'.m)) && (rc == NoDevice <==> !d'.initialized)
      && (rc == Success ==> good(d'.m))
    decreases |tries| - k
  {
    if k < |tries| {
      var r := once(d.m, tries[k]);
      assert Attempted(r, quiet, mid, good);
      if r.1 == TimedOut && reset(r.0, tries[k]).Some? {
        RetryEnds(once, reset, quiet, mid, good, Again(d, reset(r.0, tries[k]).value, k), tries, k + 1);
      }
    }
  }

  /** Timeouts and resets come in pairs, and running out of attempts takes one of each for every attempt. */
  lemma {:induction false} RetryCounts<M(!new), A(!new)>(
    once: (M, A) -> (M, Rc), reset: (M, A) -> Option<M>, d: Driver<M>, tries: seq<A>, k: nat)
    requires k <= |tries|
    ensures var (d', rc) := Retry(once, reset, d, tries, k);
      && d'.timeouts - d.timeouts == d'.resets - d.resets >= 0
      && (rc == TimedOut ==> d'.timeouts == d.timeouts + (|tries| - k))
      && (rc == TimedOut && k > 0 ==> d'.retries == d.retries + (|tries| - k))
      && (rc == TimedOut && k == 0 && tries != [] ==> d'.retries == d.retries + |tries| - 1)
    decreases |tries| - k
  {
    if k < |tries| {
      var r := once(d.m, tries[k]);
      if r.1 == TimedOut && reset(r.0, tries[k]).Some? {
        RetryCounts(once, reset, Again(d, reset(r.0, tries[k]).value, k), tries, k + 1);
      }
    }
  }

  /**
   Which answer the policy returns. `verdict` says what attempt i answers from the states
   it can find, which `at` describes, and `cleared` whether the reset after it succeeds:
   the first attempt that does not time out decides; a reset that fails means no device;
   and when all attempts time out, so does the request.
   */
  lemma {:induction false} RetryAnswers<M(!new), A(!new)>(
    once: (M, A) -> (M, Rc), reset: (M, A) -> Option<M>, verdict: nat -> Rc, cleared: nat -> bool,
    at: (nat, M) -> bool, d: Driver<M>, tries: seq<A>, k: nat)
    returns (n: nat)
    requires k <= |tries| && at(k, d.m) && Decides(once, reset, verdict, cleared, at, tries)
    ensures k <= n <= |tries| && (forall i :: k <= i < n ==> verdict(i) == TimedOut && cleared(i))
    ensures n < |tries| ==> !(verdict(n) == TimedOut && cleared(n))
    ensures var (d', rc) := Retry(once, reset, d, tries, k);
      && rc == (if n == |tries| then TimedOut else if verdict(n) == TimedOut then NoDevice else verdict(n))
      && d'.timeouts == d.timeouts + (n - k) + (if n < |tries| && verdict(n) == TimedOut then 1 else 0)
      && d'.retries == d.retries + Later(k, n + 1, |tries|)
    decreases |tries| - k
  {
    n := k;
    if k < |tries| {
      var r := once(d.m, tries[k]);
      assert Decided(once, reset, verdict, cleared, at, tries, k, d.m);
      if verdict(k) == TimedOut && cleared(k) {
        n := RetryAnswers(once, reset, verdict, cleared, at, Again(d, reset(r.0, tries[k]).value, k), tries, k + 1);
      }
    }
  }

  /** How many of the attempts from k up to n, of so many, come after the first. */
  ghost function Later(k: nat, n: nat, all: nat): (c: nat) {
    var from, to := if k == 0 then 1 else k, if n <= all then n else all;
    if from <= to then to - from else 0
  }

  ghost predicate Decides<M(!new), A>(once: (M, A) -> (M, Rc), reset: (M, A) -> Option<M>, verdict: nat -> Rc,
                                      cleared: nat -> bool, at: (nat, M) -> bool, tries: seq<A>) {
    forall i: nat, m :: i < |tries| && at(i, m) ==> Decided(once, reset, verdict, cleared, at, tries, i, m)
  }

  ghost predicate Decided<M, A>(once: (M, A) -> (M, Rc), reset: (M, A) -> Option<M>, verdict: nat -> Rc,
                                cleared: nat -> bool, at: (nat, M) -> bool, tries: seq<A>, i: nat, m: M)
    requires i < |tries|
  {
    var r := once(m, tries[i]);
    && r.1 == verdict(i) && r.1 != NoDevice
    && (r.1 == TimedOut ==>
        && (reset(r.0, tries[i]).Some? <==> cleared(i))
        && (cleared(i) ==> at(i + 1, reset(r.0, tries[i]).value)))
  }

  lemma DecidedBy<M(!new), A(!new)>(
    once: (M, A) -> (M, Rc), reset: (M, A) -> Option<M>, verdict: nat -> Rc, cleared: nat -> bool,
    at: (nat, M) -> bool, tries: seq<A>, i: nat, m: M, r: (M, Rc), m': M)
    requires i < |tries| && r == once(m, tries[i]) && r.1 == verdict(i) && r.1 != NoDevice
    requires reset(r.0, tries[i]) == if cleared(i) then Some(m') else None
    requires cleared(i) ==> at(i + 1, m')
    ensures Decided(once, reset, verdict, cleared, at, tries, i, m)
  {
  }

  /** The station attempt i starts from: the one at hand, or what the reset before it left. */
  ghost function StationAt(s: Station, tries: seq<Attempt>, i: nat): (t: Station)
    requires i <= |tries|
  {
    if i == 0 || tries[i - 1].reset.None? then s else tries[i - 1].reset.value
  }

  /** Attempts 0 to n - 1 time out and each is followed by a reset that succeeds. */
  ghost predicate GetsTo(s: Station, segs: seq<Seg>, tries: seq<Attempt>, failed: nat -> bool, n: nat) {
    n <= |tries| && forall i: nat :: i < n ==>
      Verdict(StationAt(s, tries, i), segs, tries[i], failed(i)) == TimedOut && tries[i].reset.Some?
  }

  /** The answer of the whole policy, when attempt n is the first that does not both time out and get its reset. */
  ghost predicate Answered(s: Station, segs: seq<Seg>, tries: seq<Attempt>, failed: nat -> bool, n: nat, rc: Rc) {
    && GetsTo(s, segs, tries, failed, n)
    && if n == |tries| then rc == TimedOut
       else
         var v := Verdict(StationAt(s, tries, n), segs, tries[n], failed(n));
         if v == TimedOut then tries[n].reset.None? && rc == NoDevice else rc == v
  }

  ghost function StatusBad(tries: seq<Attempt>): (f: nat -> bool) {
    (i: nat) => i < |tries| && tries[i].status != 0
  }

  ghost function VerdictAt(s: Station, segs: seq<Seg>, tries: seq<Attempt>, failed: nat -> bool): (f: nat -> Rc) {
    (i: nat) => if i < |tries| then Verdict(StationAt(s, tries, i), segs, tries[i], failed(i)) else TimedOut
  }

  ghost function ClearedAt(tries: seq<Attempt>): (f: nat -> bool) { (i: nat) => i < |tries| && tries[i].reset.Some? }

  ghost function QuietAt(s: Station, tries: seq<Attempt>): (f: (nat, Station) -> bool) {
    (i: nat, t: Station) => i <= |tries| && t == StationAt(s, tries, i) && Quiet(t.m)
  }

  lemma OnceDecides(s: Station, segs: seq<Seg>, tries: seq<Attempt>)
    requires segs != [] && Plain(segs) && forall i :: 0 <= i < |tries| ==> Sane(tries[i])
    ensures Decides(OnceOf(segs), ResetOf(), VerdictAt(s, segs, tries, StatusBad(tries)), ClearedAt(tries),
                    QuietAt(s, tries), tries)
  {
    var once, reset, verdict := OnceOf(segs), ResetOf(), VerdictAt(s, segs, tries, StatusBad(tries));
    var cleared, at := ClearedAt(tries), QuietAt(s, tries);
    forall i: nat, t | i < |tries| && at(i, t) ensures Decided(once, reset, verdict, cleared, at, tries, i, t) {
      OnceEnds(t, segs, tries[i]);
      if tries[i].reset.Some? { RebuiltQuiet(tries[i].reset.value); }
    }
  }

  /** Which answer a request gets, and after how many timeouts. */
  lemma SubmitRetryAnswers(d: Driver<Station>, segs: seq<Seg>, tries: seq<Attempt>) returns (n: nat)
    requires d.initialized && Quiet(d.m.m) && segs != [] && Plain(segs)
    requires forall i :: 0 <= i < |tries| ==> Sane(tries[i])
    ensures var (d', rc) := SubmitRetry(d, segs, tries);
      && Answered(d.m, segs, tries, StatusBad(tries), n, rc)
      && d'.timeouts == d.timeouts + n + (if rc == NoDevice then 1 else 0)
      && d'.retries == d.retries + Later(0, n + 1, |tries|)
  {
    var verdict, cleared, at := VerdictAt(d.m, segs, tries, StatusBad(tries)), ClearedAt(tries), QuietAt(d.m, tries);
    OnceDecides(d.m, segs, tries);
    assert at(0, d.m);
    n := RetryAnswers(OnceOf(segs), ResetOf(), verdict, cleared, at, d, tries, 0);
    AnsweredIs(d.m, segs, tries, StatusBad(tries), n, SubmitRetry(d, segs, tries).1);
  }

  lemma AnsweredIs(s: Station, segs: seq<Seg>, tries: seq<Attempt>, failed: nat -> bool, n: nat, rc: Rc)
    requires var verdict, cleared := VerdictAt(s, segs, tries, failed), ClearedAt(tries);
      && n <= |tries| && (forall i: nat :: i < n ==> verdict(i) == TimedOut && cleared(i))
      && (n < |tries| ==> !(verdict(n) == TimedOut && cleared(n)))
      && rc == (if n == |tries| then TimedOut else if verdict(n) == TimedOut then NoDevice else verdict(n))
    ensures Answered(s, segs, tries, failed, n, rc)
    ensures rc == NoDevice <==> n < |tries| && VerdictAt(s, segs, tries, failed)(n) == TimedOut
  {
    var verdict, cleared := VerdictAt(s, segs, tries, failed), ClearedAt(tries);
    forall i: nat | i < n
      ensures Verdict(StationAt(s, tries, i), segs, tries[i], failed(i)) == TimedOut && tries[i].reset.Some?
    {
      assert verdict(i) == TimedOut && cleared(i);
    }
    if n < |tries| {
      assert verdict(n) == Verdict(StationAt(s, tries, n), segs, tries[n], failed(n));
      assert cleared(n) <==> tries[n].reset.Some?;
      VerdictNever(StationAt(s, tries, n), segs, tries[n], failed(n));
    }
  }

  lemma VerdictNever(s: Station, segs: seq<Seg>, a: Attempt, failed: bool)
    ensures Verdict(s, segs, a, failed) in {NoSpace, TimedOut, IoError, Success}
  {
  }

  /** The attempt that decides is the only one that can, so the answer is the only one there is. */
  lemma AnsweredOnce(s: Station, segs: seq<Seg>, tries: seq<Attempt>, failed: nat -> bool, n: nat, rc: Rc, n': nat,
                     rc': Rc)
    requires Answered(s, segs, tries, failed, n, rc) && Answered(s, segs, tries, failed, n', rc')
    ensures n == n' && rc == rc'
  {
  }

  /**
   Starting with nothing outstanding, every return leaves nothing outstanding and all
   descriptors free, or the device marked uninitialised after a failed reset. Timeouts
   and resets come in pairs; running out of attempts means every one of them timed out
   and all but the first were counted as retries. The answer is that of the attempt that
   decides.
   */
  lemma SubmitRetryEnds(d: Driver<Station>, segs: seq<Seg>, tries: seq<Attempt>)
    requires d.initialized && Quiet(d.m.m) && segs != [] && Plain(segs)
    requires forall i :: 0 <= i < |tries| ==> Sane(tries[i])
    ensures var (d', rc) := SubmitRetry(d, segs, tries);
      && (d'.initialized ==> Quiet(d'.m.m)) && (rc == NoDevice <==> !d'.initialized)
      && d'.timeouts - d.timeouts == d'.resets - d.resets >= 0
      && (rc == TimedOut && tries != [] ==>
          && d'.timeouts == d.timeouts + |tries|
          && d'.retries == d.retries + |tries| - 1)
    ensures exists n: nat :: Answered(d.m, segs, tries, StatusBad(tries), n, SubmitRetry(d, segs, tries).1)
  {
    var n := SubmitRetryAnswers(d, segs, tries);
    OnceAttempts(segs, tries);
    RetryEnds(OnceOf(segs), ResetOf(), QuietOf(), Always(), QuietOf(), d, tries, 0);
    RetryCounts(OnceOf(segs), ResetOf(), d, tries, 0);
  }

  ghost function OnceOf(segs: seq<Seg>): (f: (Station, Attempt) -> (Station, Rc)) {
    (s: Station, a: Attempt) => Once(s, segs, a)
  }

  ghost function ResetOf(): (f: (Station, Attempt) -> Option<Station>) { (s: Station, a: Attempt) => a.reset }

  ghost function Always<S>(): (p: S -> bool) { (s: S) => true }

  ghost function QuietOf(): (p: Station -> bool) { (s: Station) => Quiet(s.m) }

  lemma OnceAttempts(segs: seq<Seg>, tries: seq<Attempt>)
    requires segs != [] && Plain(segs) && forall i :: 0 <= i < |tries| ==> Sane(tries[i])
    ensures Attempts(OnceOf(segs), ResetOf(), QuietOf(), Always(), QuietOf(), tries)
  {
    var quiet, always := QuietOf(), Always<Station>();
    forall s, i | 0 <= i < |tries| && quiet(s) ensures Attempted(OnceOf(segs)(s, tries[i]), quiet, always, quiet) {
      OnceEnds(s, segs, tries[i]);
    }
    forall s: Station, i | 0 <= i < |tries| && ResetOf()(s, tries[i]).Some?
      ensures quiet(ResetOf()(s, tries[i]).value)
    {
      RebuiltQuiet(tries[i].reset.value);
    }
  }
}
