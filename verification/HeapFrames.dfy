/** The heap on top of frame ownership: the pages that KernelExpandHeap hands out over any run without a
    release are distinct, aligned, never a page table, and so what the allocator builds on. */
module HeapFrames {
  import opened PageEntry
  import opened PageTable
  import opened AddressSpace
  import opened AddressSpaceRuns
  import Malloc

  ghost predicate NoRelease(ops: seq<Op>) { forall op | op in ops :: !op.Release? }

  /** The addresses that the run takes for data, in order. */
  ghost function Taken(s: State, ops: seq<Op>): seq<bv64>
    requires LegalRun(s, ops)
    decreases |ops|
  {
    if ops == [] then [] else (if ops[0].Take? then [NextAddress(s)] else []) + Taken(Step(s, ops[0]), ops[1..])
  }

  ghost predicate IsData(s: State, f: Frame) { f in s.use && s.use[f].Data? }

  lemma StepKeepsData(s: State, op: Op, f: Frame)
    requires Inv(s) && Legal(s, op) && !op.Release? && IsData(s, f)
    ensures IsData(Step(s, op), f)
  {
    hide Present, TableOf, PageOf, FrameOf, Walk, FreeOk, NodesOk, EdgesOk, Accounted, MapPath, UnmapPath, ForkTable;
    match op
    case Map(r, path, pa, flags) => MapKeepsInv(s, r, path, pa, flags);
    case Unmap(r, path) => UnmapStart(s, r, path); UnmapKeepsInv(s, r, path);
    case Fork(_, _, _) => NextIsUnused(s);
    case Take => NextIsUnused(s);
    case Store(_, _, _) =>
  }

  /** A frame in use for data stays so, and is not handed out again. */
  lemma {:induction false} DataStays(s: State, ops: seq<Op>, f: Frame)
    requires Inv(s) && LegalRun(s, ops) && NoRelease(ops) && IsData(s, f)
    ensures IsData(Exec(s, ops), f) && forall a | a in Taken(s, ops) :: FrameOf(a) != f
    decreases |ops|
  {
    hide Inv, Legal, Step, FrameOf, NextAddress, IsData;
    if ops != [] {
      assert ops[0] in ops;
      StepKeepsInv(s, ops[0]);
      StepKeepsData(s, ops[0], f);
      DataStays(Step(s, ops[0]), ops[1..], f);
      if ops[0].Take? {
        TakenIsNew(s, f);
      }
    }
  }

  lemma TakenIsNew(s: State, f: Frame)
    requires Inv(s) && Legal(s, Take)
    ensures IsData(s, f) ==> FrameOf(NextAddress(s)) != f
    ensures IsData(Step(s, Take), FrameOf(NextAddress(s))) && FrameOf(NextAddress(s)) in s.mem
    ensures Aligned(NextAddress(s))
  {
    hide FrameOf, Aligned, NodesOk, EdgesOk, Accounted;
    NextIsUnused(s);
  }

  /** The frames taken over a run are aligned frames of memory, pairwise distinct, and in use for data at
      its end. */
  lemma {:induction false} TakenFrames(s: State, ops: seq<Op>)
    requires Inv(s) && LegalRun(s, ops) && NoRelease(ops)
    ensures forall a | a in Taken(s, ops) :: Aligned(a) && FrameOf(a) in s.mem && IsData(Exec(s, ops), FrameOf(a))
    ensures forall i, j | 0 <= i < j < |Taken(s, ops)| :: FrameOf(Taken(s, ops)[i]) != FrameOf(Taken(s, ops)[j])
    decreases |ops|
  {
    hide Inv, Legal, Step, FrameOf, NextAddress, IsData, Aligned;
    if ops != [] {
      assert ops[0] in ops;
      StepKeepsInv(s, ops[0]);
      StepKeepsFrames(s, ops[0]);
      assert Step(s, ops[0]).mem.Keys == s.mem.Keys;
      TakenFrames(Step(s, ops[0]), ops[1..]);
      if ops[0].Take? {
        TakenIsNew(s, FrameOf(NextAddress(s)));
        DataStays(Step(s, ops[0]), ops[1..], FrameOf(NextAddress(s)));
      }
    }
  }

  lemma PageMultiple(x: bv64)
    ensures (x & 0xFFFF_FFFF_FFFF_F000) as int == 0x1000 * (((x >> 12) & 0xF_FFFF_FFFF_FFFF) as int)
  {
  }

  lemma MultipleOfPage(x: bv64)
    ensures (x & 0xFFFF_FFFF_FFFF_F000) as int % 0x1000 == 0
  {
    PageMultiple(x);
  }

  predicate PageWord(x: bv64) { x & 0xFFFF_FFFF_FFFF_F000 == x && x != 0 }

  lemma PointerWord(a: bv64, hhdm: bv64)
    requires Aligned(a) && hhdm & 0xFFF == 0 && hhdm != 0
    ensures PageWord(Direct(a, hhdm))
  {
  }

  lemma WordMultiple(x: bv64)
    requires PageWord(x)
    ensures FrameOf(x) % 0x1000 == 0
  {
    MultipleOfPage(x);
  }

  lemma WordNotNull(x: bv64)
    requires x != 0
    ensures FrameOf(x) > 0
  {
    assert (x as int) as bv64 == x;
  }

  lemma PointerIsPage(a: bv64, hhdm: bv64)
    requires Aligned(a) && hhdm & 0xFFF == 0 && hhdm != 0
    ensures FrameOf(Direct(a, hhdm)) % 0x1000 == 0 && FrameOf(Direct(a, hhdm)) > 0
  {
    hide FrameOf, Aligned, Direct, PageWord;
    PointerWord(a, hhdm);
    WordMultiple(Direct(a, hhdm));
    assert Direct(a, hhdm) != 0 by { NotNullWord(Direct(a, hhdm)); }
    WordNotNull(Direct(a, hhdm));
  }

  lemma NotNullWord(x: bv64)
    requires PageWord(x)
    ensures x != 0
  {
  }

  lemma SamePointer(a: bv64, b: bv64, hhdm: bv64)
    requires Disjoint(a, hhdm) && Disjoint(b, hhdm) && FrameOf(Direct(a, hhdm)) == FrameOf(Direct(b, hhdm))
    ensures a == b
  {
    hide Direct, Disjoint, Physical;
    FrameIsInjective(Direct(a, hhdm), Direct(b, hhdm));
    DirectMapRoundTrip(a, hhdm);
    DirectMapRoundTrip(b, hhdm);
  }

  /** The pointers KernelExpandHeap returns, as the numbers the allocator computes with. */
  ghost function Pages(taken: seq<bv64>, hhdm: bv64): (r: seq<int>)
    ensures |r| == |taken| && forall i | 0 <= i < |r| :: r[i] == FrameOf(Direct(taken[i], hhdm))
  {
    seq(|taken|, i requires 0 <= i < |taken| => FrameOf(Direct(taken[i], hhdm)))
  }

  /** What the allocator assumes of its pages holds of the pages of any run without a release. */
  lemma HeapPagesOk(s: State, ops: seq<Op>, hhdm: bv64)
    requires Inv(s) && LegalRun(s, ops) && NoRelease(ops) && hhdm & 0xFFF == 0 && hhdm != 0
    requires forall a: bv64 | FrameOf(a) in s.mem :: Disjoint(a, hhdm)
    ensures Malloc.PagesOk(Pages(Taken(s, ops), hhdm))
  {
    hide Inv, LegalRun, FrameOf, Direct, Disjoint, Aligned, Taken, IsData, NoRelease;
    var taken := Taken(s, ops);
    TakenFrames(s, ops);
    forall j | 0 <= j < |taken|
      ensures Pages(taken, hhdm)[j] > 0 && Pages(taken, hhdm)[j] % Malloc.PAGE == 0
    {
      assert taken[j] in taken;
      PointerIsPage(taken[j], hhdm);
    }
    forall j, k | 0 <= j < k < |taken| ensures Pages(taken, hhdm)[j] != Pages(taken, hhdm)[k] {
      assert taken[j] in taken && taken[k] in taken;
      if Pages(taken, hhdm)[j] == Pages(taken, hhdm)[k] {
        SamePointer(taken[j], taken[k], hhdm);
      }
    }
  }
}
