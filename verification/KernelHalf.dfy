/** The kernel's half of every address space: after start-up all roots share the tables of the direct map and
    of the kernel image, so loading any of them as the current root keeps the kernel running. */
module KernelHalf {
  import opened Prelude
  import opened PageEntry
  import opened PageTable
  import opened AddressSpace
  import opened AddressSpaceRuns
  import opened Boot
  import opened BootState

  /** KernelNewPageStructure copies the upper half of one root, the kernel's. */
  ghost predicate ForksFrom(k: Frame, ops: seq<Op>) { forall op | op in ops && op.Fork? :: op.kernel == k }

  /** Root k owns slot i of every root. */
  ghost predicate OwnsSlot(s: State, k: Frame, i: Index) {
    forall x | IsRoot(s, x) :: Filled(s, x, i) && OwnerOf(s, x, i) == k
  }

  /** Only a fork makes a root. */
  lemma StepMakesRoot(s: State, op: Op, x: Frame)
    requires Inv(s) && Legal(s, op) && IsRoot(Step(s, op), x)
    ensures IsRoot(s, x) || (op.Fork? && x == NextFrame(s))
  {
    hide Present, TableOf, PageOf, FrameOf, Walk, FreeOk, NodesOk, EdgesOk, Accounted, MapPath, UnmapPath;
    match op
    case Map(r, path, pa, flags) => MapRoots(s, r, path, pa, flags, x);
    case Unmap(r, path) => UnmapOwners(s, r, path, x, 0);
    case Fork(source, k, _) => ForkOwners(s, source, k, x, 0);
    case Take =>
    case Store(_, _, _) =>
    case Release(_) =>
  }

  lemma ForkOwned(s: State, source: Option<Frame>, k: Frame, i: Index)
    requires Inv(s) && Legal(s, Fork(source, k, NextFrame(s))) && i >= 256
    requires Filled(s, k, i) && OwnerOf(s, k, i) == k
    ensures var s' := NewRoot(s, source, k); Filled(s', NextFrame(s), i) && OwnerOf(s', NextFrame(s), i) == k
  {
    hide Inv, FrameOf, OwnerOf, Present, Read, NewRoot;
    NextIsUnused(s);
    ForkOwners(s, source, k, NextFrame(s), i);
    ForkReads(s, source, k, NextFrame(s), i);
  }

  lemma StepKeepsOwned(s: State, op: Op, k: Frame, i: Index)
    requires Inv(s) && Legal(s, op) && i >= 256 && IsRoot(s, k) && OwnsSlot(s, k, i)
    requires op.Fork? ==> op.kernel == k
    ensures OwnsSlot(Step(s, op), k, i) && IsRoot(Step(s, op), k)
  {
    hide Inv, FrameOf, Filled, OwnerOf, CanMap;
    StepRoots(s, op, k);
    forall x | IsRoot(Step(s, op), x) ensures Filled(Step(s, op), x, i) && OwnerOf(Step(s, op), x, i) == k {
      StepMakesRoot(s, op, x);
      if IsRoot(s, x) {
        StepOwner(s, op, x, i);
      } else {
        ForkOwned(s, op.source, k, i);
      }
    }
  }

  lemma {:induction false} RunKeepsOwned(s: State, ops: seq<Op>, k: Frame, i: Index)
    requires Inv(s) && LegalRun(s, ops) && i >= 256 && IsRoot(s, k) && OwnsSlot(s, k, i) && ForksFrom(k, ops)
    ensures Inv(Exec(s, ops)) && IsRoot(Exec(s, ops), k) && OwnsSlot(Exec(s, ops), k, i)
    decreases |ops|
  {
    hide Inv, Legal, Step, OwnsSlot, IsRoot;
    if ops != [] {
      assert ops[0] in ops;
      StepKeepsInv(s, ops[0]);
      StepKeepsOwned(s, ops[0], k, i);
      RunKeepsOwned(Step(s, ops[0]), ops[1..], k, i);
    }
  }

  /** Roots whose slot has the same owner translate alike through it. */
  lemma OwnedAlike(s: State, k: Frame, x: Frame, q: Path)
    requires Inv(s) && IsRoot(s, k) && IsRoot(s, x) && |q| == 4 && OwnsSlot(s, k, q[0])
    ensures SharesSlot(s.mem, x, k, q[0]) && Walk(s.mem, x, q) == Walk(s.mem, k, q)
  {
    hide Inv, OwnerOf, Present, TableOf, Walk, Read;
    OwnerDecides(s, x, k, q[0]);
    var c := TableOf(Read(s.mem, x, q[0]));
    WalkStep(s.mem, x, q, c);
    WalkStep(s.mem, k, q, c);
  }

  lemma FirstRoot(mem: map<Frame, Table>, list: seq<bv64>, at: Placement, x: Frame)
    requires Placed(at) && IsRoot(FirstState(mem, list, at), x)
    ensures x == FrameOf(at(Pml4))
  {
    hide FrameOf, Placed, FirstUse;
    var p := TablesAreStatic(mem, list, at, x);
  }

  /** At start-up the kernel's root is the only one and owns its two slots. */
  lemma FirstOwned(mem: map<Frame, Table>, list: seq<bv64>, at: Placement, kernel: bv64, i: Index)
    requires Installed(mem, at, kernel) && Placed(at) && PushedOk(mem, list, at) && (i == 256 || i == 511)
    ensures OwnsSlot(FirstState(mem, list, at), FrameOf(at(Pml4)), i)
  {
    hide FrameOf, Placed, Installed, PushedOk, FirstUse, Present, TableOf, Read, EntryFlags, Entry;
    var s, k := FirstState(mem, list, at), FrameOf(at(Pml4));
    var q := if i == 256 then HhdmHpd else KernelHpd;
    FlagsAreFlags();
    StaticUse(mem, list, at, kernel, Pml4);
    StaticUse(mem, list, at, kernel, q);
    EntryAt(mem, at, kernel, Pml4, i, q, if i == 256 then 7 else 3);
    assert Filled(s, k, i) && OwnerOf(s, k, i) == k;
    forall x | IsRoot(s, x) ensures x == k {
      FirstRoot(mem, list, at, x);
    }
  }

  /** After start-up, in every run, every root shares the kernel root's tables for the direct map and the
      kernel image, and translates like it there. */
  lemma KernelHalfShared(mem: map<Frame, Table>, list: seq<bv64>, at: Placement, kernel: bv64, ops: seq<Op>,
                         x: Frame, q: Path)
    requires Installed(mem, at, kernel) && Placed(at) && PushedOk(mem, list, at)
    requires LegalRun(FirstState(mem, list, at), ops) && ForksFrom(FrameOf(at(Pml4)), ops)
    requires IsRoot(Exec(FirstState(mem, list, at), ops), x) && |q| == 4 && (q[0] == 256 || q[0] == 511)
    ensures var end, k := Exec(FirstState(mem, list, at), ops), FrameOf(at(Pml4));
            IsRoot(end, k) && SharesSlot(end.mem, x, k, q[0]) && Walk(end.mem, x, q) == Walk(end.mem, k, q)
  {
    hide Inv, FrameOf, Placed, Installed, PushedOk, FirstState, LegalRun, Exec, OwnsSlot, IsRoot, Walk, SharesSlot;
    var s, k := FirstState(mem, list, at), FrameOf(at(Pml4));
    FirstStateInv(mem, list, at, kernel);
    FirstOwned(mem, list, at, kernel, q[0]);
    RunKeepsOwned(s, ops, k, q[0]);
    OwnedAlike(Exec(s, ops), k, x, q);
  }

  // ----- Pages that are never unmapped -----

  ghost predicate NeverUnmapped(q: Path, ops: seq<Op>) { forall op | op in ops && op.Unmap? :: op.path != q }

  lemma QuietPageAt(s: State, op: Op, x: Frame, q: Path)
    requires Inv(s) && Legal(s, op) && IsRoot(s, x) && |q| == 4 && (op.Take? || op.Store? || op.Release?)
    ensures PageAt(Step(s, op), x, q) == PageAt(s, x, q)
  {
    hide Inv, FlatOf, Step, Legal, Walk, IsRoot;
    StepKeepsInv(s, op);
    StepRoots(s, op, x);
    StepRefines(s, op);
    LookupRefines(s, x, q);
    LookupRefines(Step(s, op), x, q);
  }

  lemma StepKeepsPage(s: State, op: Op, x: Frame, q: Path)
    requires Inv(s) && Legal(s, op) && IsRoot(s, x) && |q| == 4 && PageAt(s, x, q).Some?
    requires op.Unmap? ==> op.path != q
    ensures PageAt(Step(s, op), x, q) == PageAt(s, x, q)
  {
    hide Inv, FrameOf, Walk, MapPath, UnmapPath, NewRoot, CanMap;
    match op
    case Map(r, path, pa, flags) => MapInserts(s, r, path, pa, flags, x, q);
    case Unmap(r, path) => UnmapDeletes(s, r, path, x, q);
    case Fork(source, k, _) => NextIsUnused(s); StepRoots(s, op, x); ForkEffect(s, source, k, x, q);
    case _ => QuietPageAt(s, op, x, q);
  }

  /** A page that no step unmaps stays where it is. */
  lemma {:induction false} PageStays(s: State, ops: seq<Op>, x: Frame, q: Path)
    requires Inv(s) && LegalRun(s, ops) && IsRoot(s, x) && |q| == 4 && PageAt(s, x, q).Some? && NeverUnmapped(q, ops)
    ensures PageAt(Exec(s, ops), x, q) == PageAt(s, x, q)
    decreases |ops|
  {
    hide Inv, Legal, Step, IsRoot, PageAt;
    if ops != [] {
      assert ops[0] in ops;
      StepKeepsInv(s, ops[0]);
      StepRoots(s, ops[0], x);
      StepKeepsPage(s, ops[0], x, q);
      PageStays(Step(s, ops[0]), ops[1..], x, q);
    }
  }

  /** A page of the kernel's two slots that was there at start-up and is never unmapped is found through every
      root, in every run. */
  lemma KernelPageEverywhere(mem: map<Frame, Table>, list: seq<bv64>, at: Placement, kernel: bv64, ops: seq<Op>,
                             x: Frame, q: Path)
    requires Installed(mem, at, kernel) && Placed(at) && PushedOk(mem, list, at)
    requires LegalRun(FirstState(mem, list, at), ops) && ForksFrom(FrameOf(at(Pml4)), ops)
    requires IsRoot(Exec(FirstState(mem, list, at), ops), x) && |q| == 4 && (q[0] == 256 || q[0] == 511)
    requires Walk(mem, FrameOf(at(Pml4)), q).Found? && NeverUnmapped(q, ops)
    ensures Walk(Exec(FirstState(mem, list, at), ops).mem, x, q) == Walk(mem, FrameOf(at(Pml4)), q)
  {
    hide Inv, FrameOf, Placed, Installed, PushedOk, FirstUse, LegalRun, Exec, IsRoot, Walk, SharesSlot, NeverUnmapped;
    var s, k := FirstState(mem, list, at), FrameOf(at(Pml4));
    KernelHalfShared(mem, list, at, kernel, ops, x, q);
    FirstStateInv(mem, list, at, kernel);
    PageStays(s, ops, k, q);
  }

  /** Through every task's root, at any time, the direct map reaches each page below 4 GiB. */
  lemma DirectMapEverywhere(mem: map<Frame, Table>, list: seq<bv64>, at: Placement, kernel: bv64, ops: seq<Op>,
                            x: Frame, hhdm: bv64, pa: bv64)
    requires Installed(mem, at, kernel) && Placed(at) && PushedOk(mem, list, at)
    requires LegalRun(FirstState(mem, list, at), ops) && ForksFrom(FrameOf(at(Pml4)), ops)
    requires IsRoot(Exec(FirstState(mem, list, at), ops), x)
    requires (hhdm >> 39) & 0x1FF == 256 && hhdm & 0x7F_FFFF_FFFF == 0 && pa < 0x1_0000_0000
    requires NeverUnmapped(PathOf(DirectSum(pa, hhdm)), ops)
    ensures Walk(Exec(FirstState(mem, list, at), ops).mem, x, PathOf(DirectSum(pa, hhdm)))
         == Found(FrameOf(pa & !0xFFF))
  {
    hide FrameOf, Placed, Installed, PushedOk, FirstState, LegalRun, Exec, IsRoot, Walk, PathOf, DirectSum,
         NeverUnmapped;
    DirectMapIsIdentity(mem, at, kernel, hhdm, pa);
    DirectMapSlot(hhdm, pa);
    KernelPageEverywhere(mem, list, at, kernel, ops, x, PathOf(DirectSum(pa, hhdm)));
  }

  lemma DirectMapSlot(hhdm: bv64, pa: bv64)
    requires (hhdm >> 39) & 0x1FF == 256 && hhdm & 0x7F_FFFF_FFFF == 0 && pa < 0x1_0000_0000
    ensures PathOf(DirectSum(pa, hhdm))[0] == 256 && PathOf(DirectSum(pa, hhdm))[1] < 4
  {
    hide Slot;
    BelowBits(pa);
    BaseAbove(hhdm, pa);
    DirectMapBits(pa, hhdm);
    DirectSlots(hhdm, pa);
  }

  /** Through every task's root, at any time, the kernel image is where start-up mapped it. */
  lemma KernelImageEverywhere(mem: map<Frame, Table>, list: seq<bv64>, at: Placement, kernel: bv64, ops: seq<Op>,
                              x: Frame, va: bv64)
    requires Installed(mem, at, kernel) && Placed(at) && PushedOk(mem, list, at)
    requires LegalRun(FirstState(mem, list, at), ops) && ForksFrom(FrameOf(at(Pml4)), ops)
    requires IsRoot(Exec(FirstState(mem, list, at), ops), x)
    requires 0xFFFF_FFFF_8000_0000 <= va <= 0xFFFF_FFFF_BFFF_FFFF && kernel & 0xFFF0_0000_0000_0FFF == 0
    requires NeverUnmapped(PathOf(va), ops)
    ensures Walk(Exec(FirstState(mem, list, at), ops).mem, x, PathOf(va))
         == Found(FrameOf(Plus(kernel, ImageOffset(va))))
  {
    hide FrameOf, Placed, Installed, PushedOk, FirstState, LegalRun, Exec, IsRoot, Walk, Slot, Plus, ImageOffset,
         NeverUnmapped;
    KernelImageIsMapped(mem, at, kernel, va);
    ImageSlots(va);
    KernelPageEverywhere(mem, list, at, kernel, ops, x, PathOf(va));
  }
}
