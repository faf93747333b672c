/** The loader as it runs, over the page allocator and the page tables. */
module ElfLoader {
  import opened Arith
  import opened Common
  import opened Pmm
  import opened PageTables
  import opened Mmu
  import opened Elf

  /** A region as the image records it. */
  datatype Region = Region(phys: nat, pages: nat)

  predicate IsLoad(ph: Phdr) { ph.kind == PT_LOAD }

  /** The loadable segments, in order. */
  ghost function Loads(phs: seq<Phdr>): (r: seq<Phdr>) {
    if phs == [] then [] else Loads(phs[..|phs| - 1]) + if IsLoad(phs[|phs| - 1]) then [phs[|phs| - 1]] else []
  }

  ghost function Headers(ss: seq<Loaded>): (r: seq<Phdr>)
    ensures |r| == |ss|
  {
    if ss == [] then [] else Headers(ss[..|ss| - 1]) + [ss[|ss| - 1].ph]
  }

  lemma HeadersMore(ss: seq<Loaded>, s: Loaded)
    ensures Headers(ss + [s]) == Headers(ss) + [s.ph]
  {
    assert (ss + [s])[..|ss|] == ss;
  }

  /** The segments loaded so far: their regions, frames and contents. */
  ghost predicate Image(start: nat, total: nat, file: seq<Octet>, data: Bytes, ss: seq<Loaded>, regions: seq<Region>) {
    |regions| == |ss| && forall i :: 0 <= i < |ss| ==> InPlace(start, total, file, data, ss[i], regions[i])
  }

  ghost predicate InPlace(start: nat, total: nat, file: seq<Octet>, data: Bytes, s: Loaded, r: Region) {
    && Usable(file, s.ph) && Filled(data, file, s)
    && s.phys == FrameAddr(start, s.frame) && s.frame + Pages(s.ph) <= total
    && Pages(s.ph) > 0 && r == Region(s.phys, Pages(s.ph))
  }

  /** Every loaded segment's pages lead to its frames, but for those taken over since. */
  ghost predicate AllReached(mem: Memory, l0: nat, ss: seq<Loaded>) {
    forall i: nat :: i < |ss| ==> Reached(mem, l0, ss, i)
  }

  /** The frames of the loaded segments. */
  ghost function Frames(ss: seq<Loaded>): (f: set<nat>) {
    if ss == [] then {} else Frames(ss[..|ss| - 1]) + Run(ss[|ss| - 1].frame, Pages(ss[|ss| - 1].ph))
  }

  lemma {:induction false} FramesHold(ss: seq<Loaded>, i: nat)
    requires i < |ss|
    ensures Run(ss[i].frame, Pages(ss[i].ph)) <= Frames(ss)
  {
    if i < |ss| - 1 { FramesHold(ss[..|ss| - 1], i); }
  }

  lemma FramesMore(ss: seq<Loaded>, s: Loaded)
    ensures Frames(ss + [s]) == Frames(ss) + Run(s.frame, Pages(s.ph))
  {
    assert (ss + [s])[..|ss|] == ss;
  }

  lemma FramesDrop(taken: set<nat>, ss: seq<Loaded>, i: nat)
    requires i < |ss|
    ensures taken - Frames(ss[..i]) - Run(ss[i].frame, Pages(ss[i].ph)) == taken - Frames(ss[..i + 1])
  {
    FramesMore(ss[..i], ss[i]);
    assert ss[..i + 1] == ss[..i] + [ss[i]];
    DropBoth(taken, Frames(ss[..i]), Run(ss[i].frame, Pages(ss[i].ph)));
  }

  lemma DropBoth(taken: set<nat>, a: set<nat>, b: set<nat>)
    ensures taken - a - b == taken - (a + b)
  {
  }

  /** Filling a new segment's frames keeps the image. */
  lemma ImageMore(start: nat, total: nat, file: seq<Octet>, data: Bytes, data': Bytes, ss: seq<Loaded>,
                  regions: seq<Region>, s: Loaded, r: Region)
    requires Image(start, total, file, data, ss, regions) && InPlace(start, total, file, data', s, r)
    requires Frames(ss) !! Run(s.frame, Pages(s.ph))
    requires Elsewhere(data, data', s.phys, s.phys + Pages(s.ph) * 4096)
    ensures Image(start, total, file, data', ss + [s], regions + [r])
  {
    forall i | 0 <= i < |ss| ensures InPlace(start, total, file, data', ss[i], regions[i]) {
      assert InPlace(start, total, file, data, ss[i], regions[i]);
      FramesHold(ss, i);
      RunsApart(start, ss[i].frame, Pages(ss[i].ph), s.frame, Pages(s.ph));
      StillFilled(data, data', file, ss[i], s.phys, s.phys + Pages(s.ph) * 4096);
    }
  }

  /** Mapping a segment keeps the pages it does not take over. */
  lemma ReachedMore(mem: Memory, mem': Memory, l0: nat, ss: seq<Loaded>, s: Loaded)
    requires AllReached(mem, l0, ss) && WellMapped(mem', l0, s) && OtherPages(mem, mem', l0, s.ph)
    ensures AllReached(mem', l0, ss + [s])
  {
    var all := ss + [s];
    forall i: nat | i < |all| ensures Reached(mem', l0, all, i) {
      forall j: nat, a: nat | j < Pages(all[i].ph) && Page(Nth(Lo(all[i].ph), j)) == Page(a) && Last(all, i, a)
        ensures Leads(mem', l0, all[i], j, a)
      {
        if i < |ss| {
          LastBefore(ss, s, i, a);
          assert Reached(mem, l0, ss, i) && Leads(mem, l0, ss[i], j, a);
        }
      }
    }
  }

  lemma LastBefore(ss: seq<Loaded>, s: Loaded, i: nat, a: nat)
    requires i < |ss| && Last(ss + [s], i, a)
    ensures Last(ss, i, a) && Outside(s.ph, a)
  {
    var all := ss + [s];
    forall k | i < k < |ss| ensures Outside(ss[k].ph, a) { assert all[k] == ss[k]; }
    assert all[|ss|] == s;
  }

  /** All the segment's pages lead to its frames. */
  ghost predicate WellMapped(mem: Memory, l0: nat, s: Loaded) {
    forall j: nat, a: nat :: j < Pages(s.ph) && Page(Nth(Lo(s.ph), j)) == Page(a) ==> Leads(mem, l0, s, j, a)
  }

  /** How far loading has come: the tables' tree, the loaded segments, and whether all of them are mapped. */
  datatype Stage = Stage(t: Tree, ss: seq<Loaded>, whole: bool)

  class Loader {
    const tables: Tables
    /** The contents of data frames, by physical address. */
    var data: Bytes

    ghost predicate Valid()
      reads this, tables, tables.pmm, tables.pmm.bitmap
    {
      tables.Valid()
    }

    constructor (t: Tables)
      requires t.Valid()
      ensures tables == t && Valid() && data == map[]
    {
      tables, data := t, map[];
    }

    method Memset(at: nat, n: nat)
      modifies this`data
      ensures forall a: nat :: at <= a < at + n ==> Has(data, a, 0)
      ensures Elsewhere(old(data), data, at, at + n)
    {
      for i := 0 to n
        invariant forall a: nat :: at <= a < at + i ==> Has(data, a, 0)
        invariant Elsewhere(old(data), data, at, at + n)
      {
        ghost var was := data;
        data := data[at + i := 0];
        forall a: nat | at <= a < at + i + 1 ensures Has(data, a, 0) { if a < at + i { assert Has(was, a, 0); } }
      }
    }

    method Memcpy(at: nat, src: seq<Octet>)
      modifies this`data
      ensures forall i: nat :: i < |src| ==> Has(data, at + i, src[i])
      ensures Elsewhere(old(data), data, at, at + |src|)
    {
      for k := 0 to |src|
        invariant forall i: nat :: i < k ==> Has(data, at + i, src[i])
        invariant Elsewhere(old(data), data, at, at + |src|)
      {
        ghost var was := data;
        data := data[at + k := src[k]];
        forall i: nat | i < k + 1 ensures Has(data, at + i, src[i]) { if i < k { assert Has(was, at + i, src[i]); } }
      }
    }

    /** Zero the frames, then copy the file bytes to their offset in the first page. */
    method Fill(file: seq<Octet>, ph: Phdr, phys: nat, ghost p: nat)
      requires Usable(file, ph)
      modifies this`data
      ensures Filled(data, file, Loaded(ph, phys, p)) && Elsewhere(old(data), data, phys, phys + Pages(ph) * 4096)
    {
      Memset(phys, Pages(ph) * 4096);
      ghost var zeroed := data;
      var intra := ph.vaddr - Lo(ph);
      Memcpy(phys + intra, file[ph.offset..ph.offset + ph.filesz]);
      forall o: nat | o < Pages(ph) * 4096 ensures Has(data, phys + o, ImageByte(file, ph, o)) {
        if intra <= o < intra + ph.filesz {
          assert Has(data, phys + intra + (o - intra), file[ph.offset..ph.offset + ph.filesz][o - intra]);
        } else {
          assert Has(zeroed, phys + o, 0);
        }
      }
    }

    /** Map a segment's pages; `mapped` unless the tables ran out of frames. */
    method MapSegment(ph: Phdr, phys: nat, l0: nat, ghost p: nat, ghost t: Tree)
      returns (ghost t': Tree, ghost mapped: bool)
      requires Valid() && tables.Space(l0, t) && ParseFlags(ph.flags).Some? && ph.vaddr + ph.memsz <= USER_TOP
      modifies tables`mem, tables.pmm, tables.pmm.bitmap
      ensures Valid() && tables.Space(l0, t') && tables.pmm.taken - t'.Values == old(tables.pmm.taken - t.Values)
      ensures mapped ==> WellMapped(tables.mem, l0, Loaded(ph, phys, p))
      ensures OtherPages(old(tables.mem), tables.mem, l0, ph)
      ensures GrownBy(t, t', RangeLevels(Lo(ph), Pages(ph)), mapped)
      ensures !mapped ==> tables.pmm.taken == Below(tables.pmm.total) && Missing(tables.mem, l0, t', ph)
    {
      var pages := Pages(ph);
      var done;
      done, t' := tables.MapUserRange(l0, Lo(ph), phys, pages, ParseFlags(ph.flags).value, t);
      mapped := done == pages;
      if !mapped { assert Hole(tables.mem, l0, t', ph, done); }
    }

    /** Frames for one segment, filled and mapped; 0 and no change when there are no frames for it. */
    method LoadSegment(file: seq<Octet>, ph: Phdr, l0: nat, ghost t: Tree)
      returns (phys: nat, ghost p: nat, ghost t': Tree, ghost mapped: bool)
      requires Valid() && tables.Space(l0, t) && Usable(file, ph)
      modifies this`data, tables`mem, tables.pmm, tables.pmm.bitmap
      ensures Valid() && tables.Space(l0, t')
      ensures phys == 0 ==> t' == t && mapped && tables.pmm.taken == old(tables.pmm.taken)
      ensures phys == 0 ==> data == old(data) && tables.mem == old(tables.mem)
      ensures phys == 0 ==> NoRoom(tables.pmm.taken, tables.pmm.total, Pages(ph))
      ensures phys != 0 ==>
        && InPlace(tables.pmm.start, tables.pmm.total, file, data, Loaded(ph, phys, p), Region(phys, Pages(ph)))
        && tables.pmm.reserved <= p && FreeRun(old(tables.pmm.taken), p, Pages(ph))
        && tables.pmm.taken - t'.Values == (old(tables.pmm.taken) - t.Values) + Run(p, Pages(ph))
        && Elsewhere(old(data), data, phys, phys + Pages(ph) * 4096)
        && OtherPages(old(tables.mem), tables.mem, l0, ph)
      ensures phys != 0 && mapped ==> WellMapped(tables.mem, l0, Loaded(ph, phys, p))
      ensures phys != 0 ==> GrownBy(t, t', RangeLevels(Lo(ph), Pages(ph)), mapped)
      ensures !mapped ==> tables.pmm.taken == Below(tables.pmm.total) && Missing(tables.mem, l0, t', ph)
    {
      phys, p := TakeFrames(file, ph);
      if phys == 0 {
        return 0, p, t, true;
      }
      TakenApart(old(tables.pmm.taken), t.Values, p, Pages(ph));
      t', mapped := MapSegment(ph, phys, l0, p, t);
    }

    /** Frames for a segment, filled. */
    method TakeFrames(file: seq<Octet>, ph: Phdr) returns (phys: nat, ghost p: nat)
      requires Valid() && Usable(file, ph)
      modifies this`data, tables.pmm, tables.pmm.bitmap
      ensures Valid()
      ensures phys == 0 ==> tables.pmm.taken == old(tables.pmm.taken) && data == old(data)
      ensures phys == 0 ==> NoRoom(tables.pmm.taken, tables.pmm.total, Pages(ph))
      ensures phys != 0 ==>
        && InPlace(tables.pmm.start, tables.pmm.total, file, data, Loaded(ph, phys, p), Region(phys, Pages(ph)))
        && tables.pmm.reserved <= p && FreeRun(old(tables.pmm.taken), p, Pages(ph))
        && tables.pmm.taken == old(tables.pmm.taken) + Run(p, Pages(ph))
        && Elsewhere(old(data), data, phys, phys + Pages(ph) * 4096)
    {
      phys, p := tables.pmm.AllocatePages(Pages(ph));
      if phys != 0 {
        assert p in Run(p, Pages(ph)) && p !in old(tables.pmm.taken);
        Fill(file, ph, phys, p);
      }
    }

    /** free_regions: every frame of every region goes back. */
    method FreeRegions(regions: seq<Region>, ghost ss: seq<Loaded>)
      requires Valid() && Recorded(tables.pmm.start, tables.pmm.total, tables.pmm.reserved, ss, regions)
      modifies tables.pmm, tables.pmm.bitmap
      ensures Valid() && tables.pmm.taken == old(tables.pmm.taken) - Frames(ss)
    {
      ghost var start, total, reserved, taken :=
        tables.pmm.start, tables.pmm.total, tables.pmm.reserved, tables.pmm.taken;
      for i := 0 to |regions|
        invariant Valid() && tables.pmm.taken == taken - Frames(ss[..i])
      {
        FramesDrop(taken, ss, i);
        assert OneRecorded(start, total, reserved, ss[i], regions[i]);
        FreeRegion(regions[i], ss[i]);
      }
      assert ss[..|ss|] == ss;
    }

    method FreeRegion(r: Region, ghost s: Loaded)
      requires Valid() && OneRecorded(tables.pmm.start, tables.pmm.total, tables.pmm.reserved, s, r)
      modifies tables.pmm, tables.pmm.bitmap
      ensures Valid() && tables.pmm.taken == old(tables.pmm.taken) - Run(s.frame, Pages(s.ph))
    {
      if r.phys != 0 && r.pages != 0 {
        tables.pmm.FreePages(r.phys, r.pages, s.frame);
      }
    }

    /** Where loading can be in this state, with these regions recorded, from where it started. */
    ghost function Stages(l0: nat, file: seq<Octet>, regions: seq<Region>, was: Before): (gs: iset<Stage>)
      reads this, tables, tables.pmm, tables.pmm.bitmap
    {
      iset g: Stage | Valid() && tables.Space(l0, g.t) && State(g.t).Holds(l0, file, g.ss, regions, was, g.whole)
    }

    lemma AtStage(l0: nat, file: seq<Octet>, regions: seq<Region>, was: Before, g: Stage)
      requires Valid() && tables.Space(l0, g.t) && State(g.t).Holds(l0, file, g.ss, regions, was, g.whole)
      ensures g in Stages(l0, file, regions, was)
    {
    }

    lemma FromStage(l0: nat, file: seq<Octet>, regions: seq<Region>, was: Before, g: Stage)
      requires g in Stages(l0, file, regions, was)
      ensures Valid() && tables.Space(l0, g.t) && State(g.t).Holds(l0, file, g.ss, regions, was, g.whole)
    {
    }

    ghost function State(t: Tree): (s: Snapshot)
      reads this, tables, tables.pmm
    {
      Snapshot(tables.pmm.start, tables.pmm.total, tables.pmm.reserved, tables.pmm.taken, t, tables.mem, data)
    }

    /** Load one more segment. */
    method Next(file: seq<Octet>, ph: Phdr, l0: nat, regions: seq<Region>, ghost g: Stage, ghost was: Before)
      returns (ok: bool, more: seq<Region>, ghost g': Stage)
      requires g in Stages(l0, file, regions, was) && Usable(file, ph)
      modifies this`data, tables`mem, tables.pmm, tables.pmm.bitmap
      ensures g' in Stages(l0, file, more, was)
      ensures ok ==> Headers(g'.ss) == Headers(g.ss) + [ph]
      ensures !ok ==> g' == g && NoRoom(tables.pmm.taken, tables.pmm.total, Pages(ph))
    {
      FromStage(l0, file, regions, was, g);
      var phys;
      ghost var p, t', mapped;
      ghost var before := State(g.t);
      phys, p, t', mapped := LoadSegment(file, ph, l0, g.t);
      if phys == 0 {
        return false, regions, g;
      }
      ok, more, g' := true, regions + [Region(phys, Pages(ph))], Stage(t', g.ss + [Loaded(ph, phys, p)], mapped);
      HeadersMore(g.ss, Loaded(ph, phys, p));
      before.More(State(t'), l0, file, g.ss, regions, was, g.whole, Loaded(ph, phys, p), mapped);
      AtStage(l0, file, more, was, g');
    }

    /** How many frames are taken, and whether all pages are mapped, follow from the demand. */
    lemma Stands(l0: nat, file: seq<Octet>, regions: seq<Region>, was: Before, g: Stage)
      requires g in Stages(l0, file, regions, was)
      ensures |tables.pmm.taken| == Min(tables.pmm.total, Demand(was, Headers(g.ss)))
      ensures g.whole <==> Demand(was, Headers(g.ss)) <= tables.pmm.total
    {
      FromStage(l0, file, regions, was, g);
      State(g.t).Counts(l0, file, g.ss, regions, was, g.whole);
    }

    /** Check a segment and load it. */
    method Admit(file: seq<Octet>, ph: Phdr, l0: nat, regions: seq<Region>, ghost g: Stage, ghost was: Before)
      returns (ok: bool, more: seq<Region>, ghost g': Stage)
      requires g in Stages(l0, file, regions, was) && |file| < LIMIT && Sized(ph) && IsLoad(ph) && |g.ss| <= MAX_REGIONS
      modifies this`data, tables`mem, tables.pmm, tables.pmm.bitmap
      ensures g' in Stages(l0, file, more, was)
      ensures ok ==> Headers(g'.ss) == Headers(g.ss) + [ph] && |g'.ss| <= MAX_REGIONS
      ensures !ok ==> g' == g && (|g.ss| == MAX_REGIONS || Blocked(file, ph, tables.pmm.taken, tables.pmm.total))
    {
      AcceptedIff(ph, |file|);
      if Refused(ph, |file|) || |regions| >= MAX_REGIONS || ParseFlags(ph.flags).None? {
        return false, regions, g;
      }
      ok, more, g' := Next(file, ph, l0, regions, g, was);
    }

    /** The segments of the headers, loaded in order up to the first that cannot be. */
    method LoadAll(file: seq<Octet>, phs: seq<Phdr>, l0: nat, ghost t: Tree, ghost was: Before)
      returns (ok: bool, regions: seq<Region>, ghost g: Stage)
      requires |file| < LIMIT && (forall i :: 0 <= i < |phs| ==> Sized(phs[i]))
      requires Stage(t, [], true) in Stages(l0, file, [], was)
      modifies this`data, tables`mem, tables.pmm, tables.pmm.bitmap
      ensures g in Stages(l0, file, regions, was)
      ensures ok ==> Headers(g.ss) == Loads(phs) && |g.ss| <= MAX_REGIONS
      ensures !ok ==> Stops(file, phs, tables.pmm.taken, tables.pmm.total, was)
    {
      regions, g := [], Stage(t, [], true);
      for i := 0 to |phs|
        invariant g in Stages(l0, file, regions, was) && Headers(g.ss) == Loads(phs[..i]) && |g.ss| <= MAX_REGIONS
      {
        LoadsStep(phs, i);
        if IsLoad(phs[i]) {
          ok, regions, g := Admit(file, phs[i], l0, regions, g, was);
          if !ok {
            Stands(l0, file, regions, was, g);
            StopsAt(file, phs, i, tables.pmm.taken, tables.pmm.total, was);
            return;
          }
        }
      }
      assert phs[..|phs|] == phs;
      ok := true;
    }

    /** Give every segment's frames back. */
    method Undo(regions: seq<Region>, l0: nat, ghost file: seq<Octet>, ghost g: Stage, ghost was: Before)
      requires g in Stages(l0, file, regions, was)
      modifies tables.pmm, tables.pmm.bitmap
      ensures Valid() && tables.Space(l0, g.t) && tables.pmm.taken - g.t.Values == was.Kept()
    {
      FromStage(l0, file, regions, was, g);
      GiveBack(tables.pmm.taken, g.t.Values, was.Kept(), Frames(g.ss));
      FreeRegions(regions, g.ss);
    }

    lemma Begins(l0: nat, file: seq<Octet>, t: Tree)
      requires Valid() && tables.Space(l0, t)
      ensures Stage(t, [], true) in Stages(l0, file, [], Before(tables.pmm.taken, t))
    {
      AtStage(l0, file, [], Before(tables.pmm.taken, t), Stage(t, [], true));
    }

    /** What a finished image is. */
    lemma Finishes(l0: nat, file: seq<Octet>, regions: seq<Region>, was: Before, g: Stage, phs: seq<Phdr>)
      requires g in Stages(l0, file, regions, was) && Headers(g.ss) == phs != []
      ensures Valid() && tables.Space(l0, g.t) && tables.pmm.taken - g.t.Values == was.Kept() + Frames(g.ss)
      ensures Image(tables.pmm.start, tables.pmm.total, file, data, g.ss, regions)
      ensures Verdict(l0, file, was, g, phs)
    {
      FromStage(l0, file, regions, was, g);
      Stands(l0, file, regions, was, g);
      if g.whole { State(g.t).AllShow(l0, file, g.ss, regions); }
      else { State(g.t).NotAllShow(l0, file, g.ss, regions); }
    }

    /**
     The image reads as the file says exactly when its demand was met; otherwise a page of
     its last segment is missing.
     */
    ghost predicate Verdict(l0: nat, file: seq<Octet>, was: Before, g: Stage, phs: seq<Phdr>)
      requires g.ss != []
      reads this, tables, tables.pmm
    {
      && (Shows(tables.mem, l0, data, file, g.ss) <==> Demand(was, phs) <= tables.pmm.total)
      && (Demand(was, phs) > tables.pmm.total ==> Missing(tables.mem, l0, g.t, g.ss[|g.ss| - 1].ph))
    }

    /**
     elf_load from its program headers on. A refusal gives back every data frame it took.
     An accepted image is all loaded, and every byte of it reads as the file says exactly
     when there were frames for its pages and for the tables they lacked.
     */
    method Load(file: seq<Octet>, phs: seq<Phdr>, entry: nat, l0: nat, ghost t: Tree)
      returns (ok: bool, regions: seq<Region>, ghost t': Tree, ghost ss: seq<Loaded>, ghost full: set<nat>,
               ghost hole: nat)
      requires Valid() && tables.Space(l0, t) && |file| < LIMIT && forall i :: 0 <= i < |phs| ==> Sized(phs[i])
      modifies this`data, tables`mem, tables.pmm, tables.pmm.bitmap
      ensures Valid() && tables.Space(l0, t')
      ensures !ok ==> regions == [] && tables.pmm.taken - t'.Values == old(tables.pmm.taken - t.Values)
      ensures ok ==>
        Headers(ss) == Loads(phs) && 0 < |ss| <= 4 && 0 < |phs| <= 32 && Enters(phs, entry)
      ensures ok ==> tables.pmm.taken - t'.Values == old(tables.pmm.taken - t.Values) + Frames(ss)
      ensures ok ==> Image(tables.pmm.start, tables.pmm.total, file, data, ss, regions)
      ensures ok ==> (Shows(tables.mem, l0, data, file, ss) <==>
        Demand(Before(old(tables.pmm.taken), t), Loads(phs)) <= tables.pmm.total)
      ensures ok && Demand(Before(old(tables.pmm.taken), t), Loads(phs)) > tables.pmm.total ==>
        Hole(tables.mem, l0, t', ss[|ss| - 1].ph, hole)
      ensures !ok ==>
        || |phs| == 0 || |phs| > 32 || Loads(phs) == [] || !Enters(phs, entry)
        || Stops(file, phs, full, tables.pmm.total, Before(old(tables.pmm.taken), t))
    {
      t', ss, full, hole := t, [], tables.pmm.taken, 0;
      if |phs| == 0 || |phs| > MAX_PHNUM {
        return false, [], t', ss, full, 0;
      }
      ghost var was, g := Before(tables.pmm.taken, t), Stage(t, [], true);
      Begins(l0, file, t);
      ok, regions, g := LoadAll(file, phs, l0, t, was);
      t', ss, full := g.t, g.ss, tables.pmm.taken;
      ok, regions, hole := Conclude(ok, file, phs, entry, l0, regions, g, was);
    }

    /** The last checks, and the way out. */
    method Conclude(loaded: bool, ghost file: seq<Octet>, phs: seq<Phdr>, entry: nat, l0: nat, regions: seq<Region>,
                    ghost g: Stage, ghost was: Before)
      returns (ok: bool, left: seq<Region>, ghost hole: nat)
      requires g in Stages(l0, file, regions, was) && (loaded ==> Headers(g.ss) == Loads(phs))
      modifies tables.pmm, tables.pmm.bitmap
      ensures Valid() && tables.Space(l0, g.t) && (ok <==> loaded && Loads(phs) != [] && Enters(phs, entry))
      ensures !ok ==> left == [] && tables.pmm.taken - g.t.Values == was.Kept()
      ensures ok ==> left == regions && tables.pmm.taken - g.t.Values == was.Kept() + Frames(g.ss)
      ensures ok ==> Image(tables.pmm.start, tables.pmm.total, file, data, g.ss, left)
      ensures ok ==> (Shows(tables.mem, l0, data, file, g.ss) <==> Demand(was, Loads(phs)) <= tables.pmm.total)
      ensures ok && Demand(was, Loads(phs)) > tables.pmm.total ==> Hole(tables.mem, l0, g.t, g.ss[|g.ss| - 1].ph, hole)
    {
      hole := 0;
      SameLength(l0, file, regions, was, g);
      var enters := EntryInside(phs, entry);
      if !loaded || |regions| == 0 || !enters {
        Undo(regions, l0, file, g, was);
        return false, [], hole;
      }
      Finishes(l0, file, regions, was, g, Loads(phs));
      if Demand(was, Loads(phs)) > tables.pmm.total { hole := FindHole(tables.mem, l0, g.t, g.ss[|g.ss| - 1].ph); }
      ok, left := true, regions;
    }

    lemma SameLength(l0: nat, file: seq<Octet>, regions: seq<Region>, was: Before, g: Stage)
      requires g in Stages(l0, file, regions, was)
      ensures |g.ss| == |regions|
    {
      FromStage(l0, file, regions, was, g);
    }
  }

  lemma GiveBack(taken: set<nat>, tree: set<nat>, kept: set<nat>, frames: set<nat>)
    requires taken - tree == kept + frames && kept !! frames && tree <= taken
    ensures taken - frames - tree == kept && tree <= taken - frames
  {
  }

  /** The frames taken and the tables there were before a load. */
  datatype Before = Before(taken: set<nat>, t: Tree)
  {
    ghost function Kept(): (k: set<nat>) { taken - t.Values }
  }

  /** How many pages the segments have. */
  ghost function PageSum(phs: seq<Phdr>): (n: nat) {
    if phs == [] then 0 else PageSum(phs[..|phs| - 1]) + Pages(phs[|phs| - 1])
  }

  /** The tables their pages are reached through. */
  ghost function Levelled(phs: seq<Phdr>): (ps: set<seq<nat>>) {
    if phs == [] then {} else Levelled(phs[..|phs| - 1]) + RangeLevels(Lo(phs[|phs| - 1]), Pages(phs[|phs| - 1]))
  }

  /** The frames in use once the segments are loaded and fully mapped: their pages and the tables that were missing. */
  ghost function Demand(was: Before, phs: seq<Phdr>): (n: nat) {
    |was.taken| + PageSum(phs) + |Levelled(phs) - was.t.Keys|
  }

  lemma SumsMore(phs: seq<Phdr>, ph: Phdr)
    ensures PageSum(phs + [ph]) == PageSum(phs) + Pages(ph)
    ensures Levelled(phs + [ph]) == Levelled(phs) + RangeLevels(Lo(ph), Pages(ph))
  {
    assert (phs + [ph])[..|phs|] == phs;
  }

  /** A page of the segment that has no table leads nowhere. */
  ghost predicate Hole(mem: Memory, l0: nat, t: Tree, ph: Phdr, j: nat) {
    j < Pages(ph) && Path(Nth(Lo(ph), j)) !in t && Translate(mem, l0, Nth(Lo(ph), j)) == 0
  }

  ghost predicate Missing(mem: Memory, l0: nat, t: Tree, ph: Phdr) {
    forall k: nat {:trigger Inside(k)} :: Inside(k) ==> exists j: nat :: Hole(mem, l0, t, ph, j)
  }

  lemma FindHole(mem: Memory, l0: nat, t: Tree, ph: Phdr) returns (j: nat)
    requires Missing(mem, l0, t, ph)
    ensures Hole(mem, l0, t, ph, j)
  {
    assert Inside(0);
    j :| Hole(mem, l0, t, ph, j);
  }

  /** In a tree every table has a frame of its own. */
  lemma {:induction false} FramesOfTree(t: Tree)
    requires Unshared(t)
    ensures |t.Values| == |t.Keys|
    decreases |t|
  {
    if t.Keys != {} {
      var p :| p in t;
      var rest := t - {p};
      assert rest.Keys == t.Keys - {p};
      SplitValues(t, p, rest);
      FramesOfTree(rest);
      OneCounted(rest.Values, t[p]);
    } else {
      assert t.Values == {};
    }
  }

  lemma OneCounted(s: set<nat>, x: nat)
    requires x !in s
    ensures |s + {x}| == |s| + 1
  {
  }

  lemma SplitValues(t: Tree, p: seq<nat>, rest: Tree)
    requires Unshared(t) && p in t && rest == t - {p}
    ensures t.Values == rest.Values + {t[p]} && t[p] !in rest.Values
  {
    forall f | f in t.Values ensures f in rest.Values + {t[p]} {
      var q :| q in t && t[q] == f;
      if q != p { assert q in rest && rest[q] == f; }
    }
    forall f | f in rest.Values ensures f in t.Values && f != t[p] {
      var q :| q in rest && rest[q] == f;
      assert t[q] == f;
    }
  }

  lemma SplitCount<T>(a: set<T>, b: set<T>)
    requires b <= a
    ensures |a| == |a - b| + |b|
  {
    assert a == (a - b) + b;
  }

  /** The frames taken are those kept, those of the segments and those of the tables. */
  lemma TakenCount(was: Before, taken: set<nat>, t: Tree, ss: seq<Loaded>)
    requires Unshared(was.t) && was.t.Values <= was.taken && Unshared(t) && t.Values <= taken
    requires taken - t.Values == was.Kept() + Frames(ss) && was.Kept() !! Frames(ss)
    ensures |taken| + |was.t.Keys| == |was.taken| + |Frames(ss)| + |t.Keys|
  {
    FramesOfTree(was.t);
    FramesOfTree(t);
    SplitCount(taken, t.Values);
    SplitCount(was.taken, was.t.Values);
  }

  lemma KeyCount(base: set<seq<nat>>, keys: set<seq<nat>>, more: set<seq<nat>>)
    requires base <= keys <= base + more
    ensures |keys| <= |base| + |more - base| && (|keys| == |base| + |more - base| <==> keys == base + more)
  {
    assert base + more == base + (more - base) && base !! more - base;
    SubsetCount(keys, base + more);
  }

  lemma {:induction false} SubsetCount<T>(a: set<T>, b: set<T>)
    requires a <= b
    ensures |a| <= |b| && (|a| == |b| <==> a == b)
  {
    SplitCount(b, a);
    if |a| == |b| { assert b - a == {}; assert b == a + (b - a); }
  }

  /** The allocator, the tables and the frames' contents at one moment. */
  datatype Snapshot = Snapshot(
    start: nat, total: nat, reserved: nat, taken: set<nat>, t: Tree, mem: Memory, data: Bytes)
  {
    ghost predicate Holds(l0: nat, file: seq<Octet>, ss: seq<Loaded>, regions: seq<Region>, was: Before, whole: bool) {
      && Image(start, total, file, data, ss, regions)
      && Recorded(start, total, reserved, ss, regions)
      && taken - t.Values == was.Kept() + Frames(ss) && was.Kept() !! Frames(ss)
      && Tallied(ss, was, whole)
      && (whole ==> AllReached(mem, l0, ss))
      && (!whole ==> taken == Below(total) && ss != [] && Missing(mem, l0, t, ss[|ss| - 1].ph))
    }

    /** The pages and the tables added up. */
    ghost predicate Tallied(ss: seq<Loaded>, was: Before, whole: bool) {
      forall k: nat {:trigger Inside(k)} :: Inside(k) ==> Tally(ss, was, whole)
    }

    ghost predicate Tally(ss: seq<Loaded>, was: Before, whole: bool) {
      && taken <= Below(total) && t.Values <= taken && Unshared(t) && was.t.Values <= was.taken && Unshared(was.t)
      && |Frames(ss)| == PageSum(Headers(ss))
      && GrownBy(was.t, t, Levelled(Headers(ss)), whole)
    }

    /** Loading a segment adds it to the image, and its frames to those accounted for. */
    lemma More(next: Snapshot, l0: nat, file: seq<Octet>, ss: seq<Loaded>, regions: seq<Region>, was: Before,
               whole: bool, s: Loaded, mapped: bool)
      requires Holds(l0, file, ss, regions, was, whole) && next.start == start && next.total == total
      requires next.reserved == reserved
      requires InPlace(start, total, file, next.data, s, Region(s.phys, Pages(s.ph))) && s.phys != 0
      requires reserved <= s.frame
      requires FreeRun(taken, s.frame, Pages(s.ph)) && next.taken <= Below(total) && next.t.Values <= next.taken
      requires Unshared(next.t)
      requires next.taken - next.t.Values == (taken - t.Values) + Run(s.frame, Pages(s.ph))
      requires Elsewhere(data, next.data, s.phys, s.phys + Pages(s.ph) * 4096) && OtherPages(mem, next.mem, l0, s.ph)
      requires mapped ==> WellMapped(next.mem, l0, s)
      requires GrownBy(t, next.t, RangeLevels(Lo(s.ph), Pages(s.ph)), mapped)
      requires !mapped ==> next.taken == Below(total) && Missing(next.mem, l0, next.t, s.ph)
      ensures next.Holds(l0, file, ss + [s], regions + [Region(s.phys, Pages(s.ph))], was, mapped)
    {
      NotFull(taken, total, s.frame, Pages(s.ph));
      FramesMore(ss, s);
      NewRun(taken, t.Values, was.Kept(), ss, s.frame, Pages(s.ph));
      ImageMore(start, total, file, data, next.data, ss, regions, s, Region(s.phys, Pages(s.ph)));
      RecordedMore(start, total, reserved, ss, regions, s);
      TalliedMore(next, ss, was, s, mapped);
      if mapped { ReachedMore(mem, next.mem, l0, ss, s); }
    }

    lemma TalliedMore(next: Snapshot, ss: seq<Loaded>, was: Before, s: Loaded, mapped: bool)
      requires Tallied(ss, was, true) && Frames(ss) !! Run(s.frame, Pages(s.ph)) && next.total == total
      requires next.taken <= Below(total) && next.t.Values <= next.taken && Unshared(next.t)
      requires GrownBy(t, next.t, RangeLevels(Lo(s.ph), Pages(s.ph)), mapped)
      ensures next.Tallied(ss + [s], was, mapped)
    {
      assert Inside(0);
      FramesMore(ss, s);
      HeadersMore(ss, s);
      SumsMore(Headers(ss), s.ph);
      RunCount(s.frame, Pages(s.ph));
      GrownTwice(was.t, t, next.t, Levelled(Headers(ss)), RangeLevels(Lo(s.ph), Pages(s.ph)),
                 Levelled(Headers(ss + [s])), mapped);
    }

    /** Everything mapped or not is decided by how many frames there are. */
    lemma Counts(l0: nat, file: seq<Octet>, ss: seq<Loaded>, regions: seq<Region>, was: Before, whole: bool)
      requires Holds(l0, file, ss, regions, was, whole)
      ensures |taken| == Min(total, Demand(was, Headers(ss)))
      ensures whole <==> Demand(was, Headers(ss)) <= total
    {
      assert Inside(0);
      var need := Levelled(Headers(ss));
      TakenCount(was, taken, t, ss);
      KeyCount(was.t.Keys, t.Keys, need);
      SubsetCount(taken, Below(total));
      if !whole { LastLevels(ss); }
    }

    /** Once everything is mapped, everything reads as the file says. */
    lemma AllShow(l0: nat, file: seq<Octet>, ss: seq<Loaded>, regions: seq<Region>)
      requires Image(start, total, file, data, ss, regions) && AllReached(mem, l0, ss) && start % 4096 == 0
      requires start + total * 4096 <= 0x1_0000_0000_0000
      ensures Shows(mem, l0, data, file, ss)
    {
      forall i: nat, o: nat | i < |ss| && o < Pages(ss[i].ph) * 4096 && Last(ss, i, Lo(ss[i].ph) + o)
        ensures Shown(mem, l0, data, file, ss[i].ph, o)
      {
        assert InPlace(start, total, file, data, ss[i], regions[i]) && Reached(mem, l0, ss, i);
        SegmentReads(mem, l0, data, file, ss, i, o);
      }
    }

    /** A page that is missing does not read at all. */
    lemma {:induction false} NotAllShow(l0: nat, file: seq<Octet>, ss: seq<Loaded>, regions: seq<Region>)
      requires Image(start, total, file, data, ss, regions) && ss != [] && Missing(mem, l0, t, ss[|ss| - 1].ph)
      ensures !Shows(mem, l0, data, file, ss)
    {
      var i := |ss| - 1;
      assert InPlace(start, total, file, data, ss[i], regions[i]);
      var j := FindHole(mem, l0, t, ss[i].ph);
      var o := HoleUnread(mem, l0, t, data, file, ss[i].ph, j);
      assert Inside(0);
      assert Last(ss, i, Lo(ss[i].ph) + o);
    }
  }

  lemma HoleUnread(mem: Memory, l0: nat, t: Tree, data: Bytes, file: seq<Octet>, ph: Phdr, j: nat) returns (o: nat)
    requires Hole(mem, l0, t, ph, j) && Usable(file, ph)
    ensures o < Pages(ph) * 4096 && !Shown(mem, l0, data, file, ph, o)
  {
    o := j * 4096;
    NoByte(mem, l0, data, Nth(Lo(ph), j));
    assert Lo(ph) + o == Nth(Lo(ph), j);
  }

  lemma NoByte(mem: Memory, l0: nat, data: Bytes, a: nat)
    requires Translate(mem, l0, a) == 0
    ensures ReadByte(mem, l0, data, a) == None
  {
    TableEntryFacts(0);
  }

  /** The last segment's tables are among those needed. */
  lemma LastLevels(ss: seq<Loaded>)
    requires ss != []
    ensures var ph := ss[|ss| - 1].ph; forall j: nat :: j < Pages(ph) ==> Path(Nth(Lo(ph), j)) in Levelled(Headers(ss))
  {
    var ph, phs := ss[|ss| - 1].ph, Headers(ss);
    assert ss == ss[..|ss| - 1] + [ss[|ss| - 1]];
    HeadersMore(ss[..|ss| - 1], ss[|ss| - 1]);
    SumsMore(Headers(ss[..|ss| - 1]), ph);
    forall j: nat | j < Pages(ph) ensures Path(Nth(Lo(ph), j)) in Levelled(phs) { RangeHolds(Lo(ph), Pages(ph), j); }
  }

  lemma {:induction false} RunCount(p: nat, n: nat)
    ensures |Run(p, n)| == n
  {
    if n > 0 {
      RunCount(p, n - 1);
      assert Run(p, n) == Run(p, n - 1) + {p + n - 1};
    }
  }

  /** No byte outside the range has changed. */
  ghost predicate Elsewhere(data: Bytes, data': Bytes, lo: nat, hi: nat) {
    forall a: nat :: a < lo || hi <= a ==> (a in data' <==> a in data) && (a in data ==> data'[a] == data[a])
  }

  /** Pages outside the segment translate as before. */
  ghost predicate OtherPages(mem: Memory, mem': Memory, l0: nat, ph: Phdr) {
    forall vb: nat :: Outside(ph, vb) ==>
      Translate(mem', l0, vb) == Translate(mem, l0, vb)
  }

  lemma TakenApart(taken: set<nat>, tree: set<nat>, p: nat, n: nat)
    requires tree <= taken && FreeRun(taken, p, n)
    ensures (taken + Run(p, n)) - tree == (taken - tree) + Run(p, n)
  {
  }

  /** The regions record the frames of the segments, all past the reserved ones. */
  ghost predicate Recorded(start: nat, total: nat, reserved: nat, ss: seq<Loaded>, regions: seq<Region>) {
    |regions| == |ss| && forall i :: 0 <= i < |ss| ==> OneRecorded(start, total, reserved, ss[i], regions[i])
  }

  ghost predicate OneRecorded(start: nat, total: nat, reserved: nat, s: Loaded, r: Region) {
    && r == Region(FrameAddr(start, s.frame), Pages(s.ph)) && r.phys != 0 && r.pages != 0
    && reserved <= s.frame && s.frame + Pages(s.ph) <= total
  }

  lemma RecordedMore(start: nat, total: nat, reserved: nat, ss: seq<Loaded>, regions: seq<Region>, s: Loaded)
    requires Recorded(start, total, reserved, ss, regions) && s.phys == FrameAddr(start, s.frame) != 0
    requires reserved <= s.frame && s.frame + Pages(s.ph) <= total && Pages(s.ph) > 0
    ensures Recorded(start, total, reserved, ss + [s], regions + [Region(s.phys, Pages(s.ph))])
  {
    forall i | 0 <= i < |ss| ensures OneRecorded(start, total, reserved, ss[i], regions[i]) {}
  }

  lemma NotFull(taken: set<nat>, total: nat, p: nat, n: nat)
    requires FreeRun(taken, p, n) && n > 0 && p + n <= total
    ensures taken != Below(total)
  {
    assert p in Below(total);
  }

  /** The new frames are none of those accounted for. */
  lemma NewRun(taken: set<nat>, tree: set<nat>, kept: set<nat>, ss: seq<Loaded>, p: nat, n: nat)
    requires taken - tree == kept + Frames(ss) && kept !! Frames(ss) && FreeRun(taken, p, n)
    ensures Frames(ss) !! Run(p, n) && kept !! Frames(ss) + Run(p, n)
  {
    forall q | q in Run(p, n) ensures q !in kept && q !in Frames(ss) { assert q !in taken; }
  }

  ghost predicate NoRoom(taken: set<nat>, total: nat, n: nat) {
    n == 0 || forall q: nat :: q + n <= total ==> !FreeRun(taken, q, n)
  }

  /** A loadable segment that is malformed, or for which there was no run of free frames. */
  ghost predicate Blocked(file: seq<Octet>, ph: Phdr, taken: set<nat>, total: nat) {
    IsLoad(ph) && (!(Usable(file, ph) && ph.vaddr < USER_TOP) || NoRoom(taken, total, Pages(ph)))
  }

  /** The headers cannot all be loaded: too many segments, or one that is blocked. */
  ghost predicate Stops(file: seq<Octet>, phs: seq<Phdr>, taken: set<nat>, total: nat, was: Before) {
    |Loads(phs)| > 4 || exists i :: 0 <= i < |phs| && StuckAt(file, phs, i, taken, total, was)
  }

  /** Header i is blocked, with as many frames in use as the segments before it demand. */
  ghost predicate StuckAt(file: seq<Octet>, phs: seq<Phdr>, i: nat, taken: set<nat>, total: nat, was: Before)
    requires i < |phs|
  {
    Blocked(file, phs[i], taken, total) && |taken| == Min(total, Demand(was, Loads(phs[..i])))
  }

  lemma StopsAt(file: seq<Octet>, phs: seq<Phdr>, i: nat, taken: set<nat>, total: nat, was: Before)
    requires i < |phs| && IsLoad(phs[i]) && (|Loads(phs[..i])| == MAX_REGIONS || Blocked(file, phs[i], taken, total))
    requires |taken| == Min(total, Demand(was, Loads(phs[..i])))
    ensures Stops(file, phs, taken, total, was)
  {
    LoadsStep(phs, i);
    LoadsGrow(phs, i + 1);
    if Blocked(file, phs[i], taken, total) { assert StuckAt(file, phs, i, taken, total, was); }
  }

  predicate EntersAt(ph: Phdr, entry: nat) {
    IsLoad(ph) && ph.vaddr <= entry < ph.vaddr + ph.memsz && Executes(ph.flags)
  }

  /** The entry point lies in an executable loadable segment. */
  ghost predicate Enters(phs: seq<Phdr>, entry: nat) {
    exists i :: 0 <= i < |phs| && EntersAt(phs[i], entry)
  }

  method EntryInside(phs: seq<Phdr>, entry: nat) returns (ok: bool)
    ensures ok <==> Enters(phs, entry)
  {
    for i := 0 to |phs|
      invariant forall k :: 0 <= k < i ==> !EntersAt(phs[k], entry)
    {
      if EntersAt(phs[i], entry) {
        return true;
      }
    }
    return false;
  }

  lemma LoadsStep(phs: seq<Phdr>, i: nat)
    requires i < |phs|
    ensures Loads(phs[..i + 1]) == Loads(phs[..i]) + if IsLoad(phs[i]) then [phs[i]] else []
  {
    assert phs[..i + 1][..i] == phs[..i];
  }

  lemma {:induction false} LoadsGrow(phs: seq<Phdr>, i: nat)
    requires i <= |phs|
    ensures |Loads(phs[..i])| <= |Loads(phs)|
    decreases |phs| - i
  {
    if i < |phs| {
      LoadsStep(phs, i);
      LoadsGrow(phs, i + 1);
    } else {
      assert phs[..i] == phs;
    }
  }

  ghost predicate Shown(mem: Memory, l0: nat, data: Bytes, file: seq<Octet>, ph: Phdr, o: nat) {
    Usable(file, ph) && ReadsAs(mem, l0, data, file, ph, o) && Entitles(Translate(mem, l0, Lo(ph) + o), ph.flags)
  }

  /**
   Every byte of the pages reads as the image byte of the last segment that has it in its
   pages, and can be written and executed exactly as that segment's flags say.
   */
  ghost predicate Shows(mem: Memory, l0: nat, data: Bytes, file: seq<Octet>, ss: seq<Loaded>) {
    forall k: nat {:trigger Inside(k)} :: Inside(k) ==>
      forall i: nat, o: nat :: i < |ss| && o < Pages(ss[i].ph) * 4096 && Last(ss, i, Lo(ss[i].ph) + o) ==>
        Shown(mem, l0, data, file, ss[i].ph, o)
  }

  /** Byte k of a segment reads as the file says if no later segment has it in its pages. */
  lemma ByteReads(mem: Memory, l0: nat, data: Bytes, file: seq<Octet>, ss: seq<Loaded>, i: nat, k: nat)
    requires Shows(mem, l0, data, file, ss) && i < |ss| && Usable(file, ss[i].ph) && k < ss[i].ph.memsz
    requires Last(ss, i, ss[i].ph.vaddr + k)
    ensures ReadByte(mem, l0, data, ss[i].ph.vaddr + k)
      == Some(if k < ss[i].ph.filesz then file[ss[i].ph.offset + k] else 0)
    ensures Entitles(Translate(mem, l0, ss[i].ph.vaddr + k), ss[i].ph.flags)
  {
    var o := ImageIs(file, ss[i].ph, k);
    assert Inside(0);
    assert Shown(mem, l0, data, file, ss[i].ph, o);
  }

  /**
   Where an accepted program starts: in an executable segment i, on a byte that user code
   may execute exactly when the last segment w with that byte in its pages is executable.
   */
  lemma EntryRuns(mem: Memory, l0: nat, data: Bytes, file: seq<Octet>, ss: seq<Loaded>, phs: seq<Phdr>, entry: nat)
    returns (i: nat, w: nat)
    requires Shows(mem, l0, data, file, ss) && Headers(ss) == Loads(phs) && Enters(phs, entry)
    requires forall k :: 0 <= k < |ss| ==> Usable(file, ss[k].ph)
    ensures i <= w < |ss| && Last(ss, w, entry) && !Outside(ss[w].ph, entry)
    ensures ss[i].ph.kind == 1 && ss[i].ph.vaddr <= entry < ss[i].ph.vaddr + ss[i].ph.memsz && ss[i].ph.flags % 2 == 1
    ensures UserExecutes(Translate(mem, l0, entry)) <==> ss[w].ph.flags % 2 == 1
  {
    i := EntryHeader(ss, phs, entry);
    InPages(ss[i].ph, entry);
    w := LastHolder(ss, i, |ss|, entry);
    var o := PlaceOf(file, ss[w].ph, entry);
    assert Inside(0);
    assert Shown(mem, l0, data, file, ss[w].ph, o);
  }

  lemma EntryHeader(ss: seq<Loaded>, phs: seq<Phdr>, entry: nat) returns (i: nat)
    requires Headers(ss) == Loads(phs) && Enters(phs, entry)
    ensures i < |ss| && ss[i].ph.kind == 1 && ss[i].ph.flags % 2 == 1
    ensures ss[i].ph.vaddr <= entry < ss[i].ph.vaddr + ss[i].ph.memsz
  {
    var k :| 0 <= k < |phs| && EntersAt(phs[k], entry);
    LoadsHold(phs, phs[k]);
    i :| 0 <= i < |ss| && Headers(ss)[i] == phs[k];
    HeadersAt(ss, i);
  }

  /** The loadable segments are those of type 1. */
  lemma {:induction false} LoadsHold(phs: seq<Phdr>, ph: Phdr)
    ensures ph in Loads(phs) <==> ph in phs && ph.kind == 1
  {
    if phs != [] {
      var before := phs[..|phs| - 1];
      LoadsHold(before, ph);
      assert phs == before + [phs[|phs| - 1]];
    }
  }

  lemma {:induction false} HeadersAt(ss: seq<Loaded>, i: nat)
    requires i < |ss|
    ensures Headers(ss)[i] == ss[i].ph
  {
    if i < |ss| - 1 { HeadersAt(ss[..|ss| - 1], i); }
  }

  lemma InPages(ph: Phdr, a: nat)
    requires ph.vaddr <= a < ph.vaddr + ph.memsz
    ensures !Outside(ph, a)
  {
    var j := (a - Lo(ph)) / 4096;
    assert j < Pages(ph) && Page(Nth(Lo(ph), j)) == Page(a);
  }

  lemma PlaceOf(file: seq<Octet>, ph: Phdr, a: nat) returns (o: nat)
    requires Usable(file, ph) && a < USER_TOP && !Outside(ph, a)
    ensures o < Pages(ph) * 4096 && Lo(ph) + o == a
  {
    var j: nat :| j < Pages(ph) && Page(Nth(Lo(ph), j)) == Page(a);
    PageAt(ph.vaddr / 4096 + j);
    LowPage(a);
    o := a - Lo(ph);
  }

  lemma PageAt(n: nat)
    requires n < 0x10_0000_0000
    ensures Page(n * 4096) == n
  {
  }

  lemma LowPage(a: nat)
    requires a < 0x1_0000_0000
    ensures Page(a) * 4096 <= a < Page(a) * 4096 + 4096
  {
  }

  /** The last of the first n segments that has the address in its pages. */
  lemma {:induction false} LastHolder(ss: seq<Loaded>, i: nat, n: nat, a: nat) returns (w: nat)
    requires i < n <= |ss| && !Outside(ss[i].ph, a) && forall k :: n <= k < |ss| ==> Outside(ss[k].ph, a)
    ensures i <= w < |ss| && Last(ss, w, a) && !Outside(ss[w].ph, a)
    decreases n
  {
    if Outside(ss[n - 1].ph, a) { w := LastHolder(ss, i, n - 1, a); } else { w := n - 1; }
  }

  /** A byte that a later segment has in its pages reads right exactly when the two agree on it. */
  lemma SharedByteIff(mem: Memory, l0: nat, data: Bytes, file: seq<Octet>, ss: seq<Loaded>, i: nat, k: nat, w: nat,
                      o: nat)
    requires Shows(mem, l0, data, file, ss) && i < w < |ss| && Usable(file, ss[i].ph) && Usable(file, ss[w].ph)
    requires k < ss[i].ph.memsz
    requires o < Pages(ss[w].ph) * 4096 && Lo(ss[w].ph) + o == ss[i].ph.vaddr + k && Last(ss, w, Lo(ss[w].ph) + o)
    ensures var due := if k < ss[i].ph.filesz then file[ss[i].ph.offset + k] else 0;
      ReadByte(mem, l0, data, ss[i].ph.vaddr + k) == Some(due) <==> ImageByte(file, ss[w].ph, o) == due
  {
    assert Inside(0);
    assert Shown(mem, l0, data, file, ss[w].ph, o);
  }
}
