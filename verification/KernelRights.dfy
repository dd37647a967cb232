/** The rights of the kernel's half: what start-up gives the kernel image and the direct map, and that every root
    has the same, in every run. */
module KernelRights {
  import opened Prelude
  import opened PageEntry
  import opened PageTable
  import opened AddressSpace
  import opened AddressSpaceRuns
  import opened Boot
  import opened BootState
  import opened KernelHalf
  import opened AccessRights
  import opened AccessRightsRuns

  // ----- At start-up -----

  lemma PassedAt(mem: map<Frame, Table>, at: Placement, kernel: bv64, p: Place, k: Index, q: Place, flags: bv64,
                 path: Path)
    requires Installed(mem, at, kernel) && Placed(at) && EntryFlags(flags) && path != [] && path[0] == k
    requires Content(at, kernel, p, k) == Entry(at(q), flags)
    ensures Trail(mem, FrameOf(at(p)), path) == [flags] + Trail(mem, FrameOf(at(q)), path[1..])
  {
    hide Entry, Present, TableOf, EntryFlags, Aligned, Content, FrameOf, Flags, Trail;
    EntryAt(mem, at, kernel, p, k, q, flags);
    EntryCarries(at(q), flags);
    assert InstalledAt(mem, at, kernel, p, k);
    TrailStep(mem, FrameOf(at(p)), path, FrameOf(at(q)));
  }

  lemma LeafPassed(mem: map<Frame, Table>, t: Frame, k: Index)
    requires Present(Read(mem, t, k))
    ensures Trail(mem, t, [k]) == [Flags(Read(mem, t, k))]
  {
    assert [k][1..] == [];
  }

  lemma KernelLeafFlags(kernel: bv64, offset: bv64)
    requires kernel & 0xFFF0_0000_0000_0FFF == 0 && offset < 0x8000_0000
    requires offset & 0xFFF == 0
    ensures Flags(Plus(kernel, offset)) == 0
  {
  }

  lemma OffsetBits(a: bv64, b: bv64)
    requires a & !0x1FF == 0 && b & !0x1FF == 0
    ensures KernelOffset(a, b) < 0x8000_0000 && KernelOffset(a, b) & 0xFFF == 0
  {
  }

  /** Programs have no right to the kernel image, which the kernel may write. */
  lemma KernelImageTrail(mem: map<Frame, Table>, at: Placement, kernel: bv64, va: bv64)
    requires Installed(mem, at, kernel) && Placed(at) && PathOf(va)[0] == 511 && PathOf(va)[1] == 510
    requires kernel & 0xFFF0_0000_0000_0FFF == 0
    ensures Trail(mem, FrameOf(at(Pml4)), PathOf(va)) == [3, 3, 3, 3]
  {
    hide Present, TableOf, PageOf, FrameOf, Slot, Entry, KernelLeaf, Placed, EntryFlags, Read, Trail, Flags;
    FlagsAreFlags();
    var path := PathOf(va);
    var i, k := path[2], path[3];
    assert path[1..] == [510, i, k] && [510, i, k][1..] == [i, k] && [i, k][1..] == [k];
    PassedAt(mem, at, kernel, Pml4, 511, KernelHpd, 3, path);
    PassedAt(mem, at, kernel, KernelHpd, 510, KernelLpd, 3, [510, i, k]);
    PassedAt(mem, at, kernel, KernelLpd, i, KernelPt(i), 3, [i, k]);
    KernelLeafReads(kernel, va);
    assert InstalledAt(mem, at, kernel, KernelPt(i), k);
    LeafPassed(mem, FrameOf(at(KernelPt(i))), k);
    ImageLeafFlags(kernel, va);
  }

  lemma ImageLeafFlags(kernel: bv64, va: bv64)
    requires kernel & 0xFFF0_0000_0000_0FFF == 0
    ensures Flags(KernelLeaf(kernel, Slot(va >> 21), Slot(va >> 12))) == 3
  {
    hide Entry, EntryFlags, Slot, Word, KernelOffset, Plus, Flags;
    WordOfSlot(va >> 21);
    WordOfSlot(va >> 12);
    var a, b := Word(Slot(va >> 21)), Word(Slot(va >> 12));
    NineBitFields(va);
    OffsetBits(a, b);
    KernelLeafFlags(kernel, KernelOffset(a, b));
    FlagsAreFlags();
    EntryCarries(Plus(kernel, KernelOffset(a, b)), 3);
    assert 0 | 3 == 3 as bv64;
  }

  lemma NineBitFields(va: bv64)
    ensures ((va >> 21) & 0x1FF) & !0x1FF == 0 && ((va >> 12) & 0x1FF) & !0x1FF == 0
  {
  }

  /** Programs may read and write the whole direct map, where their own heap and stacks lie. */
  lemma DirectMapTrail(mem: map<Frame, Table>, at: Placement, kernel: bv64, va: bv64)
    requires Installed(mem, at, kernel) && Placed(at) && PathOf(va)[0] == 256 && PathOf(va)[1] < 4
    ensures Trail(mem, FrameOf(at(Pml4)), PathOf(va)) == [7, 7, 7, 7]
  {
    hide Present, TableOf, PageOf, FrameOf, Slot, Entry, DirectLeaf, Placed, EntryFlags, Read, Trail, Flags;
    FlagsAreFlags();
    var path := PathOf(va);
    var j, i, k := path[1], path[2], path[3];
    assert path[1..] == [j, i, k] && [j, i, k][1..] == [i, k] && [i, k][1..] == [k];
    PassedAt(mem, at, kernel, Pml4, 256, HhdmHpd, 7, path);
    PassedAt(mem, at, kernel, HhdmHpd, j, HhdmLpd(j), 7, [j, i, k]);
    PassedAt(mem, at, kernel, HhdmLpd(j), i, HhdmPt(j, i), 7, [i, k]);
    DirectLeafReads(va);
    assert InstalledAt(mem, at, kernel, HhdmPt(j, i), k);
    LeafPassed(mem, FrameOf(at(HhdmPt(j, i))), k);
    DirectLeafFlags(va);
  }

  lemma DirectLeafFlags(va: bv64)
    requires Slot(va >> 30) < 4
    ensures Flags(DirectLeaf(Slot(va >> 30), Slot(va >> 21), Slot(va >> 12))) == 7
  {
    hide Entry, EntryFlags, Slot, Word, FrameOf, Aligned, DirectAddress, DirectPart, Flags;
    WordOfSlot(va >> 30);
    WordOfSlot(va >> 21);
    WordOfSlot(va >> 12);
    SlotValues(va >> 30);
    HighSlots(va);
    var c, a, b := Word(Slot(va >> 30)), Word(Slot(va >> 21)), Word(Slot(va >> 12));
    DirectBits(va, c, a, b);
    BelowFourGiB(va);
    FlagsAreFlags();
    EntryCarries(DirectAddress(c, a, b), 7);
  }

  // ----- In every root, at any time -----

  /** Along q all roots pass the same flags as root k. */
  ghost predicate Alike(s: State, k: Frame, q: Path) {
    forall x | IsRoot(s, x) :: Trail(s.mem, x, q) == Trail(s.mem, k, q)
  }

  lemma StepKeepsAlike(s: State, op: Op, k: Frame, q: Path)
    requires Inv(s) && Legal(s, op) && |q| == 4 && q[0] >= 256 && IsRoot(s, k) && OwnsSlot(s, k, q[0])
    requires (op.Fork? ==> op.kernel == k) && Alike(s, k, q)
    ensures Alike(Step(s, op), k, q)
  {
    hide Inv, Trail, IsRoot, FlatOf, MapPath, UnmapPath, NewRoot, NextFrame, CanMap, OwnsSlot, Added, Cleared, FlatSees;
    StepRoots(s, op, k);
    StepTrailsRefine(s, op);
    forall x: Frame | IsRoot(Step(s, op), x) ensures Trail(Step(s, op).mem, x, q) == Trail(Step(s, op).mem, k, q) {
      StepMakesRoot(s, op, x);
      assert (x, q) in TrailsOf(Step(s, op)) && (k, q) in TrailsOf(Step(s, op)) && (k, q) in TrailsOf(s);
      if op.Fork? {
        NextIsUnused(s);
        RootIsTable(s, k);
      }
      if (op.Map? || op.Unmap?) && op.path[0] == q[0] {
        AllSee(s, k, x, op.root, q[0]);
        AllSee(s, k, k, op.root, q[0]);
      }
      if op.Map? {
        AddedStep(|Trail(s.mem, k, q)|, op.path, q, op.pa, op.flags);
      }
      if op.Unmap? {
        ClearedApart(Trail(s.mem, k, q), op.path, q);
      }
    }
  }

  lemma ClearedApart(was: seq<bv64>, path: Path, q: Path)
    requires |path| == |q| > 0
    ensures path[0] != q[0] ==> Cleared(was, path, q) == was
  {
  }

  /** In a slot that root k owns everywhere, every root sees what is mapped through any. */
  lemma AllSee(s: State, k: Frame, x: Frame, r: Frame, i: Index)
    requires Inv(s) && IsRoot(s, x) && IsRoot(s, r) && OwnsSlot(s, k, i)
    ensures FlatSees(FlatOf(s), x, r, i)
  {
    hide Inv, OwnerOf, Filled;
    assert (x, i) in FlatOf(s).owner && (r, i) in FlatOf(s).owner;
  }

  lemma {:induction false} RunKeepsAlike(s: State, ops: seq<Op>, k: Frame, q: Path)
    requires Inv(s) && LegalRun(s, ops) && |q| == 4 && q[0] >= 256 && IsRoot(s, k) && OwnsSlot(s, k, q[0])
    requires ForksFrom(k, ops) && Alike(s, k, q)
    ensures Alike(Exec(s, ops), k, q)
    decreases |ops|
  {
    hide Inv, Legal, Step, OwnsSlot, IsRoot, Alike;
    if ops != [] {
      assert ops[0] in ops;
      StepKeepsInv(s, ops[0]);
      StepKeepsOwned(s, ops[0], k, q[0]);
      StepKeepsAlike(s, ops[0], k, q);
      RunKeepsAlike(Step(s, ops[0]), ops[1..], k, q);
    }
  }

  /** A page of the kernel's half that no step unmaps has in every root, at any time after start-up, the rights it
      had in the static tables. */
  lemma KernelTrailEverywhere(mem: map<Frame, Table>, list: seq<bv64>, at: Placement, kernel: bv64, ops: seq<Op>,
                              x: Frame, q: Path)
    requires Installed(mem, at, kernel) && Placed(at) && PushedOk(mem, list, at)
    requires LegalRun(FirstState(mem, list, at), ops) && ForksFrom(FrameOf(at(Pml4)), ops)
    requires IsRoot(Exec(FirstState(mem, list, at), ops), x) && |q| == 4 && (q[0] == 256 || q[0] == 511)
    requires |Trail(mem, FrameOf(at(Pml4)), q)| == 4 && NeverUnmapped(q, ops)
    ensures Trail(Exec(FirstState(mem, list, at), ops).mem, x, q) == Trail(mem, FrameOf(at(Pml4)), q)
  {
    hide Inv, FrameOf, Placed, Installed, PushedOk, FirstUse, LegalRun, Exec, IsRoot, Trail, NeverUnmapped, OwnsSlot;
    var s, k := FirstState(mem, list, at), FrameOf(at(Pml4));
    FirstStateInv(mem, list, at, kernel);
    FirstOwned(mem, list, at, kernel, q[0]);
    forall y | IsRoot(s, y) ensures Trail(s.mem, y, q) == Trail(s.mem, k, q) {
      FirstRoot(mem, list, at, y);
    }
    RunKeepsAlike(s, ops, k, q);
    RunKeepsTrail(s, ops, k, q);
  }

  /** Through every root, at any time: no program may touch the kernel image. */
  lemma KernelImageRights(mem: map<Frame, Table>, list: seq<bv64>, at: Placement, kernel: bv64, ops: seq<Op>,
                          x: Frame, va: bv64)
    requires Installed(mem, at, kernel) && Placed(at) && PushedOk(mem, list, at)
    requires LegalRun(FirstState(mem, list, at), ops) && ForksFrom(FrameOf(at(Pml4)), ops)
    requires IsRoot(Exec(FirstState(mem, list, at), ops), x) && NeverUnmapped(PathOf(va), ops)
    requires 0xFFFF_FFFF_8000_0000 <= va <= 0xFFFF_FFFF_BFFF_FFFF
    requires kernel & 0xFFF0_0000_0000_0FFF == 0
    ensures Rights(Trail(Exec(FirstState(mem, list, at), ops).mem, x, PathOf(va))) == 2
  {
    hide FrameOf, Placed, Installed, PushedOk, FirstState, LegalRun, Exec, IsRoot, Trail, NeverUnmapped, Slot;
    ImageSlots(va);
    KernelImageTrail(mem, at, kernel, va);
    KernelTrailEverywhere(mem, list, at, kernel, ops, x, PathOf(va));
    RightsOfFour(3);
  }

  /** Through every root, at any time: programs may write the direct map. */
  lemma DirectMapRights(mem: map<Frame, Table>, list: seq<bv64>, at: Placement, kernel: bv64, ops: seq<Op>,
                        x: Frame, hhdm: bv64, pa: bv64)
    requires Installed(mem, at, kernel) && Placed(at) && PushedOk(mem, list, at)
    requires LegalRun(FirstState(mem, list, at), ops) && ForksFrom(FrameOf(at(Pml4)), ops)
    requires IsRoot(Exec(FirstState(mem, list, at), ops), x) && NeverUnmapped(PathOf(DirectSum(pa, hhdm)), ops)
    requires (hhdm >> 39) & 0x1FF == 256 && hhdm & 0x7F_FFFF_FFFF == 0 && pa < 0x1_0000_0000
    ensures Rights(Trail(Exec(FirstState(mem, list, at), ops).mem, x, PathOf(DirectSum(pa, hhdm)))) == 6
  {
    hide FrameOf, Placed, Installed, PushedOk, FirstState, LegalRun, Exec, IsRoot, Trail, NeverUnmapped, Slot;
    hide PathOf, DirectSum;
    var va := DirectSum(pa, hhdm);
    DirectMapSlot(hhdm, pa);
    DirectMapTrail(mem, at, kernel, va);
    KernelTrailEverywhere(mem, list, at, kernel, ops, x, PathOf(va));
    RightsOfFour(7);
  }

  lemma RightsOfFour(f: bv64)
    ensures Rights([f, f, f, f]) == f & 6
  {
    assert [f, f, f, f] == seq(4, _ => f);
    RightsOfCopies(4, f);
  }
}
