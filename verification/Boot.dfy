/** Start-up of the page tables: what KernelInitializePaging writes into the static tables of the kernel
    image, how every virtual address then translates, and that the result is a first state in which frame
    ownership holds. */
module Boot {
  import opened PageEntry
  import opened PageTable

  type Quarter = j: int | 0 <= j < 4

  /** The page-sized pieces of the static tables.  A row of 1024 entries fills two pages; only the first
      of them is ever used as a table, the second is the tail. */
  datatype Place =
    | Pml4 | KernelHpd | KernelLpd | KernelPt(i: Index) | KernelPtTail(i: Index)
    | HhdmHpd | HhdmLpd(j: Quarter) | HhdmPt(j: Quarter, i: Index) | HhdmPtTail(j: Quarter, i: Index)

  /** The physical address of each piece, as the boot loader's own tables translate it. */
  type Placement = Place -> bv64

  ghost predicate Placed(at: Placement) {
    && (forall p :: Aligned(at(p)))
    && (forall p, q | FrameOf(at(p)) == FrameOf(at(q)) :: p == q)
  }

  function LowWord(k: Index): bv64 { (k as bv9) as bv64 }

  /** A loop counter below 1024 as a word. */
  function Word(k: nat): bv64
    requires k < 1024
  {
    if k < 512 then LowWord(k) else LowWord(k - 512) | 0x200
  }

  function KernelLeaf(kernel: bv64, kpd: nat, kpt: nat): bv64
    requires kpd < 512 && kpt < 1024
  {
    Entry(Plus(kernel, KernelOffset(Word(kpd), Word(kpt))), 3)
  }

  function Plus(a: bv64, b: bv64): bv64 { a + b }

  function KernelOffset(kpd: bv64, kpt: bv64): bv64 { (kpd << 21) + (kpt << 12) }

  function DirectAddress(hpdp: bv64, hpd: bv64, hpt: bv64): bv64 { (hpdp << 30) + (hpd << 21) + (hpt << 12) }

  function DirectLeaf(hpdp: nat, hpd: nat, hpt: nat): bv64
    requires hpdp < 4 && hpd < 512 && hpt < 1024
  {
    Entry(DirectAddress(Word(hpdp), Word(hpd), Word(hpt)), 7)
  }

  /** What each entry of the static tables holds after start-up. */
  function Content(at: Placement, kernel: bv64, p: Place, k: Index): bv64 {
    match p
    case Pml4 => if k == 511 then Entry(at(KernelHpd), 3) else if k == 256 then Entry(at(HhdmHpd), 7) else 0
    case KernelHpd => if k == 510 then Entry(at(KernelLpd), 3) else 0
    case KernelLpd => Entry(at(KernelPt(k)), 3)
    case KernelPt(i) => KernelLeaf(kernel, i, k)
    case KernelPtTail(i) => KernelLeaf(kernel, i, 512 + k)
    case HhdmHpd => if k < 4 then Entry(at(HhdmLpd(k)), 7) else 0
    case HhdmLpd(j) => Entry(at(HhdmPt(j, k)), 7)
    case HhdmPt(j, i) => DirectLeaf(j, i, k)
    case HhdmPtTail(j, i) => DirectLeaf(j, i, 512 + k)
  }

  /** The static tables as the kernel declares them. */
  class StaticTables {
    const pml4: array<bv64>
    const kernelHpd: array<bv64>
    const kernelLpd: array<bv64>
    const kernelPt: array2<bv64>
    const hhdmHpd: array<bv64>
    const hhdmLpd: array2<bv64>
    const hhdmPt: array3<bv64>

    ghost predicate Sized() {
      && pml4.Length == kernelHpd.Length == kernelLpd.Length == hhdmHpd.Length == 512
      && kernelPt.Length0 == 512 && kernelPt.Length1 == 1024
      && hhdmLpd.Length0 == 4 && hhdmLpd.Length1 == 512
      && hhdmPt.Length0 == 4 && hhdmPt.Length1 == 512 && hhdmPt.Length2 == 1024
      && pml4 != kernelHpd && pml4 != kernelLpd && pml4 != hhdmHpd
      && kernelHpd != kernelLpd && kernelHpd != hhdmHpd && kernelLpd != hhdmHpd && kernelPt != hhdmLpd
    }

    function Cell(p: Place, k: Index): bv64
      requires Sized()
      reads pml4, kernelHpd, kernelLpd, kernelPt, hhdmHpd, hhdmLpd, hhdmPt
    {
      match p
      case Pml4 => pml4[k]
      case KernelHpd => kernelHpd[k]
      case KernelLpd => kernelLpd[k]
      case KernelPt(i) => kernelPt[i, k]
      case KernelPtTail(i) => kernelPt[i, 512 + k]
      case HhdmHpd => hhdmHpd[k]
      case HhdmLpd(j) => hhdmLpd[j, k]
      case HhdmPt(j, i) => hhdmPt[j, i, k]
      case HhdmPtTail(j, i) => hhdmPt[j, i, 512 + k]
    }

    /** The loader clears the three sparse tables before the kernel starts. */
    ghost predicate Zeroed()
      requires Sized()
      reads pml4, kernelHpd, hhdmHpd
    {
      forall k: Index :: pml4[k] == 0 && kernelHpd[k] == 0 && hhdmHpd[k] == 0
    }

    /** The kernel image brings the tables along, the sparse ones cleared. */
    constructor ()
      ensures Sized() && Zeroed() && fresh(pml4) && fresh(kernelHpd) && fresh(kernelLpd) && fresh(kernelPt)
      ensures fresh(hhdmHpd) && fresh(hhdmLpd) && fresh(hhdmPt)
    {
      pml4 := new bv64[512](_ => 0);
      kernelHpd := new bv64[512](_ => 0);
      kernelLpd := new bv64[512](_ => 0);
      kernelPt := new bv64[512, 1024];
      hhdmHpd := new bv64[512](_ => 0);
      hhdmLpd := new bv64[4, 512];
      hhdmPt := new bv64[4, 512, 1024];
    }

    /** Every entry is what start-up writes. */
    ghost predicate Filled(at: Placement, kernel: bv64)
      requires Sized()
      reads pml4, kernelHpd, kernelLpd, kernelPt, hhdmHpd, hhdmLpd, hhdmPt
    {
      forall p, k: Index :: Cell(p, k) == Content(at, kernel, p, k)
    }

    /** Physical memory holds these tables where the boot loader put them. */
    ghost predicate HeldIn(mem: map<Frame, Table>, at: Placement)
      requires Sized()
      reads pml4, kernelHpd, kernelLpd, kernelPt, hhdmHpd, hhdmLpd, hhdmPt
    {
      forall p, k: Index :: FrameOf(at(p)) in mem && Read(mem, FrameOf(at(p)), k) == Cell(p, k)
    }

    /** KernelInitializePaging, with the boot loader's translations given. */
    method KernelInitializePaging(at: Placement, kernel: bv64)
      requires Sized() && Zeroed()
      modifies pml4, kernelHpd, kernelLpd, kernelPt, hhdmHpd, hhdmLpd, hhdmPt
      ensures forall p, k: Index :: Cell(p, k) == Content(at, kernel, p, k)
    {
      hide Entry, KernelLeaf, DirectLeaf;
      pml4[511] := Entry(at(KernelHpd), 3);
      kernelHpd[510] := Entry(at(KernelLpd), 3);
      FillKernel(at, kernel);
      pml4[256] := Entry(at(HhdmHpd), 7);
      FillDirect(at);
    }

    method FillKernel(at: Placement, kernel: bv64)
      requires Sized()
      modifies kernelLpd, kernelPt
      ensures forall i: Index :: kernelLpd[i] == Entry(at(KernelPt(i)), 3)
      ensures forall i: Index, k | 0 <= k < 1024 :: kernelPt[i, k] == KernelLeaf(kernel, i, k)
    {
      hide Entry, KernelLeaf;
      var kpd := 0;
      while kpd < 512
        invariant kpd <= 512
        invariant forall i: Index | i < kpd :: kernelLpd[i] == Entry(at(KernelPt(i)), 3)
        invariant forall i: Index, k | i < kpd && 0 <= k < 1024 :: kernelPt[i, k] == KernelLeaf(kernel, i, k)
      {
        kernelLpd[kpd] := Entry(at(KernelPt(kpd)), 3);
        var kpt := 0;
        while kpt < 1024
          invariant kpt <= 1024
          invariant forall i: Index, k | i < kpd && 0 <= k < 1024 :: kernelPt[i, k] == KernelLeaf(kernel, i, k)
          invariant forall k | 0 <= k < kpt :: kernelPt[kpd, k] == KernelLeaf(kernel, kpd, k)
          modifies kernelPt
        {
          kernelPt[kpd, kpt] := KernelLeaf(kernel, kpd, kpt);
          kpt := kpt + 1;
        }
        kpd := kpd + 1;
      }
    }

    method FillDirect(at: Placement)
      requires Sized() && forall k: Index :: hhdmHpd[k] == 0
      modifies hhdmHpd, hhdmLpd, hhdmPt
      ensures forall k: Index :: hhdmHpd[k] == if k < 4 then Entry(at(HhdmLpd(k)), 7) else 0
      ensures forall j: Quarter, i: Index :: hhdmLpd[j, i] == Entry(at(HhdmPt(j, i)), 7)
      ensures forall j: Quarter, i: Index, k | 0 <= k < 1024 :: hhdmPt[j, i, k] == DirectLeaf(j, i, k)
    {
      hide Entry, DirectLeaf;
      var hpdp := 0;
      while hpdp < 4
        invariant hpdp <= 4
        invariant forall k: Index :: hhdmHpd[k] == if k < hpdp then Entry(at(HhdmLpd(k)), 7) else 0
        invariant forall j: Quarter, i: Index | j < hpdp :: hhdmLpd[j, i] == Entry(at(HhdmPt(j, i)), 7)
        invariant forall j: Quarter, i: Index, k | j < hpdp && 0 <= k < 1024 :: hhdmPt[j, i, k] == DirectLeaf(j, i, k)
      {
        hhdmHpd[hpdp] := Entry(at(HhdmLpd(hpdp)), 7);
        FillQuarter(at, hpdp);
        hpdp := hpdp + 1;
      }
    }

    /** The two inner loops of the direct map, for one entry of its top table. */
    method FillQuarter(at: Placement, hpdp: Quarter)
      requires Sized()
      modifies hhdmLpd, hhdmPt
      ensures forall i: Index :: hhdmLpd[hpdp, i] == Entry(at(HhdmPt(hpdp, i)), 7)
      ensures forall i: Index, k | 0 <= k < 1024 :: hhdmPt[hpdp, i, k] == DirectLeaf(hpdp, i, k)
      ensures forall j: Quarter, i: Index | j != hpdp :: hhdmLpd[j, i] == old(hhdmLpd[j, i])
      ensures forall j: Quarter, i: Index, k | j != hpdp && 0 <= k < 1024 :: hhdmPt[j, i, k] == old(hhdmPt[j, i, k])
    {
      hide Entry, DirectLeaf;
      var hpd := 0;
      while hpd < 512
        invariant hpd <= 512
        invariant forall i: Index | i < hpd :: hhdmLpd[hpdp, i] == Entry(at(HhdmPt(hpdp, i)), 7)
        invariant forall i: Index, k | i < hpd && 0 <= k < 1024 :: hhdmPt[hpdp, i, k] == DirectLeaf(hpdp, i, k)
        invariant forall j: Quarter, i: Index | j != hpdp :: hhdmLpd[j, i] == old(hhdmLpd[j, i])
        invariant forall j: Quarter, i: Index, k | j != hpdp && 0 <= k < 1024 :: hhdmPt[j, i, k] == old(hhdmPt[j, i, k])
      {
        hhdmLpd[hpdp, hpd] := Entry(at(HhdmPt(hpdp, hpd)), 7);
        var hpt := 0;
        while hpt < 1024
          invariant hpt <= 1024
          invariant forall k | 0 <= k < hpt :: hhdmPt[hpdp, hpd, k] == DirectLeaf(hpdp, hpd, k)
          invariant forall i: Index, k | i < hpd && 0 <= k < 1024 :: hhdmPt[hpdp, i, k] == DirectLeaf(hpdp, i, k)
          invariant forall j: Quarter, i: Index, k | j != hpdp && 0 <= k < 1024 ::
                      hhdmPt[j, i, k] == old(hhdmPt[j, i, k])
          modifies hhdmPt
        {
          hhdmPt[hpdp, hpd, hpt] := DirectLeaf(hpdp, hpd, hpt);
          hpt := hpt + 1;
        }
        hpd := hpd + 1;
      }
    }
  }

  // ----- How addresses translate -----

  /** Physical memory as the processor sees it through the new root. */
  ghost predicate Installed(mem: map<Frame, Table>, at: Placement, kernel: bv64) {
    forall p, k: Index :: InstalledAt(mem, at, kernel, p, k)
  }

  ghost predicate InstalledAt(mem: map<Frame, Table>, at: Placement, kernel: bv64, p: Place, k: Index) {
    FrameOf(at(p)) in mem && Read(mem, FrameOf(at(p)), k) == Content(at, kernel, p, k)
  }

  ghost function Contents(at: Placement, kernel: bv64, p: Place): Table {
    seq(512, k requires 0 <= k < 512 => Content(at, kernel, p, k))
  }

  /** The frames of the static tables. */
  ghost function StaticFrames(at: Placement): set<Frame> {
    {FrameOf(at(Pml4)), FrameOf(at(KernelHpd)), FrameOf(at(KernelLpd)), FrameOf(at(HhdmHpd))}
    + (set i | 0 <= i < 512 :: FrameOf(at(KernelPt(i)))) + (set i | 0 <= i < 512 :: FrameOf(at(KernelPtTail(i))))
    + (set j | 0 <= j < 4 :: FrameOf(at(HhdmLpd(j))))
    + (set j, i | 0 <= j < 4 && 0 <= i < 512 :: FrameOf(at(HhdmPt(j, i))))
    + (set j, i | 0 <= j < 4 && 0 <= i < 512 :: FrameOf(at(HhdmPtTail(j, i))))
  }

  /** The static tables over whatever else is in physical memory. */
  ghost function Overlaid(mem: map<Frame, Table>, at: Placement, kernel: bv64): map<Frame, Table> {
    mem + map f | f in StaticFrames(at) && exists p :: FrameOf(at(p)) == f ::
            var p :| FrameOf(at(p)) == f; Contents(at, kernel, p)
  }

  lemma WordOfSlot(x: bv64)
    ensures Word(Slot(x)) == x & 0x1FF
  {
    hide LowWord;
    assert Slot(x) == ToIndex((x & 0x1FF) as bv9);
    NineBits((x & 0x1FF) as bv9);
    NineBitsOf(x);
  }

  function ToIndex(p: bv9): Index { p as int }

  lemma BackToBits(p: bv9)
    ensures ToIndex(p) as bv9 == p
  {
    assert (p as int) as bv9 == p;
  }

  lemma NineBits(p: bv9)
    ensures LowWord(ToIndex(p)) == p as bv64
  {
    hide ToIndex;
    BackToBits(p);
  }

  lemma NineBitsOf(x: bv64)
    ensures ((x & 0x1FF) as bv9) as bv64 == x & 0x1FF
  {
  }

  lemma SmallSlots(x: bv64)
    ensures x & 0x1FF == 0 ==> Slot(x) == 0
    ensures x & 0x1FF == 1 ==> Slot(x) == 1
    ensures x & 0x1FF == 2 ==> Slot(x) == 2
    ensures x & 0x1FF == 3 ==> Slot(x) == 3
  {
  }

  lemma LargeSlots(x: bv64)
    ensures x & 0x1FF == 256 ==> Slot(x) == 256
    ensures x & 0x1FF == 510 ==> Slot(x) == 510
    ensures x & 0x1FF == 511 ==> Slot(x) == 511
  {
  }

  lemma SlotValues(x: bv64)
    ensures Slot(x) < 4 ==> x & 0x1FC == 0
  {
    hide Slot;
    WordOfSlot(x);
    if Slot(x) < 4 {
      SmallWords(Slot(x));
    }
  }

  lemma SmallWords(k: nat)
    requires k < 4
    ensures Word(k) & 0x1FC == 0
  {
    if k == 0 {
      assert Word(0) == 0;
    } else if k == 1 {
      assert Word(1) == 1;
    } else if k == 2 {
      assert Word(2) == 2;
    } else {
      assert Word(3) == 3;
    }
  }

  /** Bits 12..31 and 12..29 of an address. */
  function DirectPart(va: bv64): bv64 { va & 0xFFFF_F000 }

  function KernelPart(va: bv64): bv64 { va & 0x3FFF_F000 }

  function KernelPage(kernel: bv64, va: bv64): Frame { PageOf(Plus(kernel, KernelPart(va))) }

  /** What a virtual address translates to after start-up. */
  function Expected(kernel: bv64, va: bv64): Lookup {
    var p := PathOf(va);
    if p[0] == 256 then (if p[1] < 4 then Found(FrameOf(DirectPart(va))) else Missing(3))
    else if p[0] == 511 then (if p[1] == 510 then Found(KernelPage(kernel, va)) else Missing(3))
    else Missing(4)
  }

  lemma EntryAt(mem: map<Frame, Table>, at: Placement, kernel: bv64, p: Place, k: Index, q: Place, flags: bv64)
    requires Installed(mem, at, kernel) && Placed(at) && EntryFlags(flags)
    requires Content(at, kernel, p, k) == Entry(at(q), flags)
    ensures Present(Read(mem, FrameOf(at(p)), k)) && TableOf(Read(mem, FrameOf(at(p)), k)) == FrameOf(at(q))
  {
    hide Entry, Present, TableOf, PageOf, TableAddress, EntryFlags, Aligned, Content, FrameOf;
    EntryRoundTrip(at(q), flags);
    assert InstalledAt(mem, at, kernel, p, k);
  }

  lemma FlagsAreFlags()
    ensures EntryFlags(3) && EntryFlags(7)
  {
  }

  lemma KernelBits(va: bv64, a: bv64, b: bv64)
    requires a == (va >> 21) & 0x1FF && b == (va >> 12) & 0x1FF
    ensures KernelOffset(a, b) == KernelPart(va)
  {
  }

  lemma KernelLeafReads(kernel: bv64, va: bv64)
    ensures var w := KernelLeaf(kernel, Slot(va >> 21), Slot(va >> 12));
            Present(w) && PageOf(w) == KernelPage(kernel, va)
  {
    hide Entry, Present, PageOf, EntryFlags, Slot, Word, KernelOffset, KernelPart, Plus;
    WordOfSlot(va >> 21);
    WordOfSlot(va >> 12);
    var a, b := Word(Slot(va >> 21)), Word(Slot(va >> 12));
    KernelBits(va, a, b);
    FlagsAreFlags();
    LeafRoundTrip(Plus(kernel, KernelOffset(a, b)), 3);
  }

  lemma DirectBits(va: bv64, c: bv64, a: bv64, b: bv64)
    requires c == (va >> 30) & 0x1FF && c & 0x1FC == 0
    requires a == (va >> 21) & 0x1FF && b == (va >> 12) & 0x1FF
    ensures DirectAddress(c, a, b) == DirectPart(va)
  {
  }

  lemma BelowFourGiB(va: bv64)
    ensures Aligned(DirectPart(va))
  {
  }

  lemma DirectLeafReads(va: bv64)
    requires Slot(va >> 30) < 4
    ensures var w := DirectLeaf(Slot(va >> 30), Slot(va >> 21), Slot(va >> 12));
            Present(w) && PageOf(w) == FrameOf(DirectPart(va))
  {
    hide Entry, Present, PageOf, EntryFlags, Slot, Word, FrameOf, Aligned, TableAddress, TableOf, DirectAddress,
         DirectPart;
    WordOfSlot(va >> 30);
    WordOfSlot(va >> 21);
    WordOfSlot(va >> 12);
    SlotValues(va >> 30);
    var c, a, b := Word(Slot(va >> 30)), Word(Slot(va >> 21)), Word(Slot(va >> 12));
    HighSlots(va);
    DirectBits(va, c, a, b);
    FlagsAreFlags();
    BelowFourGiB(va);
    EntryRoundTrip(DirectAddress(c, a, b), 7);
  }

  lemma HighSlots(va: bv64)
    requires (va >> 30) & 0x1FC == 0
    ensures ((va >> 30) & 0x1FF) & 0x1FC == 0
  {
  }

  lemma WalkLeaf(mem: map<Frame, Table>, t: Frame, path: Path)
    requires |path| == 1 && Present(Read(mem, t, path[0]))
    ensures Walk(mem, t, path) == Found(PageOf(Read(mem, t, path[0])))
  {
  }

  lemma KernelHalf(mem: map<Frame, Table>, at: Placement, kernel: bv64, va: bv64)
    requires Installed(mem, at, kernel) && Placed(at) && Slot(va >> 30) == 510
    ensures Walk(mem, FrameOf(at(KernelHpd)), [510, Slot(va >> 21), Slot(va >> 12)]) == Found(KernelPage(kernel, va))
  {
    hide Walk, Present, TableOf, PageOf, FrameOf, Slot, Entry, KernelLeaf, Placed, EntryFlags, Read;
    FlagsAreFlags();
    var i, k := Slot(va >> 21), Slot(va >> 12);
    EntryAt(mem, at, kernel, KernelHpd, 510, KernelLpd, 3);
    WalkStep(mem, FrameOf(at(KernelHpd)), [510, i, k], FrameOf(at(KernelLpd)));
    assert [510, i, k][1..] == [i, k] && [i, k][1..] == [k];
    EntryAt(mem, at, kernel, KernelLpd, i, KernelPt(i), 3);
    WalkStep(mem, FrameOf(at(KernelLpd)), [i, k], FrameOf(at(KernelPt(i))));
    KernelLeafReads(kernel, va);
    assert InstalledAt(mem, at, kernel, KernelPt(i), k);
    WalkLeaf(mem, FrameOf(at(KernelPt(i))), [k]);
  }

  lemma DirectHalf(mem: map<Frame, Table>, at: Placement, kernel: bv64, va: bv64)
    requires Installed(mem, at, kernel) && Placed(at) && Slot(va >> 30) < 4
    ensures Walk(mem, FrameOf(at(HhdmHpd)), [Slot(va >> 30), Slot(va >> 21), Slot(va >> 12)])
         == Found(FrameOf(DirectPart(va)))
  {
    hide Walk, Present, TableOf, PageOf, FrameOf, Slot, Entry, DirectLeaf, Placed, EntryFlags, Read;
    FlagsAreFlags();
    var j, i, k := Slot(va >> 30), Slot(va >> 21), Slot(va >> 12);
    EntryAt(mem, at, kernel, HhdmHpd, j, HhdmLpd(j), 7);
    WalkStep(mem, FrameOf(at(HhdmHpd)), [j, i, k], FrameOf(at(HhdmLpd(j))));
    assert [j, i, k][1..] == [i, k] && [i, k][1..] == [k];
    EntryAt(mem, at, kernel, HhdmLpd(j), i, HhdmPt(j, i), 7);
    WalkStep(mem, FrameOf(at(HhdmLpd(j))), [i, k], FrameOf(at(HhdmPt(j, i))));
    DirectLeafReads(va);
    assert InstalledAt(mem, at, kernel, HhdmPt(j, i), k);
    WalkLeaf(mem, FrameOf(at(HhdmPt(j, i))), [k]);
  }

  /** Every virtual address translates as expected, and no other address translates at all. */
  lemma Translation(mem: map<Frame, Table>, at: Placement, kernel: bv64, va: bv64)
    requires Installed(mem, at, kernel) && Placed(at)
    ensures Walk(mem, FrameOf(at(Pml4)), PathOf(va)) == Expected(kernel, va)
  {
    hide Walk, Present, TableOf, PageOf, FrameOf, Slot, Entry, KernelLeaf, DirectLeaf, Placed, EntryFlags, Read;
    FlagsAreFlags();
    ZeroIsAbsent();
    var path := PathOf(va);
    var rest := [Slot(va >> 30), Slot(va >> 21), Slot(va >> 12)];
    assert path[1..] == rest;
    var root := FrameOf(at(Pml4));
    if path[0] == 256 {
      EntryAt(mem, at, kernel, Pml4, 256, HhdmHpd, 7);
      WalkStep(mem, root, path, FrameOf(at(HhdmHpd)));
      if path[1] < 4 {
        DirectHalf(mem, at, kernel, va);
      } else {
        assert InstalledAt(mem, at, kernel, HhdmHpd, rest[0]);
        WalkStops(mem, FrameOf(at(HhdmHpd)), rest);
      }
    } else if path[0] == 511 {
      EntryAt(mem, at, kernel, Pml4, 511, KernelHpd, 3);
      WalkStep(mem, root, path, FrameOf(at(KernelHpd)));
      if path[1] == 510 {
        KernelHalf(mem, at, kernel, va);
      } else {
        assert InstalledAt(mem, at, kernel, KernelHpd, rest[0]);
        WalkStops(mem, FrameOf(at(KernelHpd)), rest);
      }
    } else {
      assert InstalledAt(mem, at, kernel, Pml4, path[0]);
      WalkStops(mem, root, path);
    }
  }

  // ----- The direct map and the kernel image -----

  lemma BelowBits(pa: bv64)
    requires pa < 0x1_0000_0000
    ensures pa & 0xFFFF_FFFF_0000_0000 == 0
  {
  }

  lemma BaseAbove(hhdm: bv64, pa: bv64)
    requires hhdm & 0x7F_FFFF_FFFF == 0 && pa & 0xFFFF_FFFF_0000_0000 == 0
    ensures Disjoint(pa, hhdm)
  {
  }

  lemma TopBits(hhdm: bv64, pa: bv64)
    requires hhdm & 0x7F_FFFF_FFFF == 0 && pa & 0xFFFF_FFFF_0000_0000 == 0
    ensures ((pa | hhdm) >> 39) & 0x1FF == (hhdm >> 39) & 0x1FF
  {
  }

  lemma QuarterBits(hhdm: bv64, pa: bv64)
    requires hhdm & 0x7F_FFFF_FFFF == 0 && pa & 0xFFFF_FFFF_0000_0000 == 0
    ensures ((pa | hhdm) >> 30) & 0x1FC == 0
  {
  }

  lemma LowBits(hhdm: bv64, pa: bv64)
    requires hhdm & 0x7F_FFFF_FFFF == 0 && pa & 0xFFFF_FFFF_0000_0000 == 0
    ensures DirectPart(pa | hhdm) == pa & !0xFFF
  {
  }

  lemma InQuarters(x: bv64)
    requires x & 0x1FC == 0
    ensures Slot(x) < 4
  {
    hide Slot;
    assert x & 0x1FF == 0 || x & 0x1FF == 1 || x & 0x1FF == 2 || x & 0x1FF == 3;
    SmallSlots(x);
  }

  lemma DirectSlots(hhdm: bv64, pa: bv64)
    requires (hhdm >> 39) & 0x1FF == 256 && hhdm & 0x7F_FFFF_FFFF == 0 && pa & 0xFFFF_FFFF_0000_0000 == 0
    ensures Slot((pa | hhdm) >> 39) == 256 && Slot((pa | hhdm) >> 30) < 4
  {
    hide Slot;
    TopBits(hhdm, pa);
    QuarterBits(hhdm, pa);
    LargeSlots((pa | hhdm) >> 39);
    InQuarters((pa | hhdm) >> 30);
  }

  lemma DirectTranslates(mem: map<Frame, Table>, at: Placement, kernel: bv64, hhdm: bv64, pa: bv64)
    requires Installed(mem, at, kernel) && Placed(at)
    requires (hhdm >> 39) & 0x1FF == 256 && hhdm & 0x7F_FFFF_FFFF == 0 && pa & 0xFFFF_FFFF_0000_0000 == 0
    ensures Walk(mem, FrameOf(at(Pml4)), PathOf(pa | hhdm)) == Found(FrameOf(pa & !0xFFF))
  {
    hide Walk, FrameOf, Slot, Placed, Installed, DirectPart;
    Translation(mem, at, kernel, pa | hhdm);
    DirectSlots(hhdm, pa);
    LowBits(hhdm, pa);
  }

  /** With the direct-map base at top-level slot 256, every address below 4 GiB translates through the
      direct map to its own page. */
  lemma DirectMapIsIdentity(mem: map<Frame, Table>, at: Placement, kernel: bv64, hhdm: bv64, pa: bv64)
    requires Installed(mem, at, kernel) && Placed(at)
    requires (hhdm >> 39) & 0x1FF == 256 && hhdm & 0x7F_FFFF_FFFF == 0 && pa < 0x1_0000_0000
    ensures Walk(mem, FrameOf(at(Pml4)), PathOf(DirectSum(pa, hhdm))) == Found(FrameOf(pa & !0xFFF))
  {
    hide Walk, FrameOf, Placed, Installed, PathOf;
    BelowBits(pa);
    BaseAbove(hhdm, pa);
    DirectMapBits(pa, hhdm);
    DirectTranslates(mem, at, kernel, hhdm, pa);
  }

  lemma ZeroFrame(a: bv64)
    requires FrameOf(a) == FrameOf(0)
    ensures a == 0
  {
    assert (a as int) as bv64 == a;
  }

  lemma BaseBits(hhdm: bv64)
    requires hhdm & 0xFFF == 0 && DirectPart(hhdm) == 0 && (hhdm >> 30) & 0x1FC == 0
    ensures hhdm & 0x7F_FFFF_FFFF == 0
  {
  }

  lemma BaseTranslates(mem: map<Frame, Table>, at: Placement, kernel: bv64, hhdm: bv64)
    requires Installed(mem, at, kernel) && Placed(at)
    requires (hhdm >> 39) & 0x1FF == 256 && hhdm & 0xFFF == 0
    requires Walk(mem, FrameOf(at(Pml4)), PathOf(hhdm)) == Found(FrameOf(0))
    ensures hhdm & 0x7F_FFFF_FFFF == 0
  {
    hide Walk, FrameOf, Slot, Placed, Installed, DirectPart;
    Translation(mem, at, kernel, hhdm);
    LargeSlots(hhdm >> 39);
    SlotValues(hhdm >> 30);
    ZeroFrame(DirectPart(hhdm));
    BaseBits(hhdm);
  }

  lemma SumWithZero(hhdm: bv64)
    ensures DirectSum(0, hhdm) == hhdm && 0 & !0xFFF == 0 as bv64
  {
  }

  /** That the base is the very start of its top-level slot is also necessary. */
  lemma DirectMapNeedsWholeSlot(mem: map<Frame, Table>, at: Placement, kernel: bv64, hhdm: bv64)
    requires Installed(mem, at, kernel) && Placed(at)
    requires (hhdm >> 39) & 0x1FF == 256 && hhdm & 0xFFF == 0
    ensures (forall pa: bv64 | pa < 0x1_0000_0000 ::
               Walk(mem, FrameOf(at(Pml4)), PathOf(DirectSum(pa, hhdm))) == Found(FrameOf(pa & !0xFFF)))
       <==> hhdm & 0x7F_FFFF_FFFF == 0
  {
    hide Walk, FrameOf, Placed, Installed, DirectSum, PathOf;
    SumWithZero(hhdm);
    if hhdm & 0x7F_FFFF_FFFF == 0 {
      forall pa: bv64 | pa < 0x1_0000_0000
        ensures Walk(mem, FrameOf(at(Pml4)), PathOf(DirectSum(pa, hhdm))) == Found(FrameOf(pa & !0xFFF))
      {
        DirectMapIsIdentity(mem, at, kernel, hhdm, pa);
      }
    } else {
      var pa: bv64 := 0;
      if Walk(mem, FrameOf(at(Pml4)), PathOf(DirectSum(pa, hhdm))) == Found(FrameOf(pa & !0xFFF)) {
        BaseTranslates(mem, at, kernel, hhdm);
      }
    }
  }

  /** The page-aligned distance of an address from the start of the kernel image. */
  function ImageOffset(va: bv64): bv64 { (va - 0xFFFF_FFFF_8000_0000) & !0xFFF }

  lemma ImageBits(va: bv64)
    requires 0xFFFF_FFFF_8000_0000 <= va <= 0xFFFF_FFFF_BFFF_FFFF
    ensures (va >> 39) & 0x1FF == 511 && (va >> 30) & 0x1FF == 510
    ensures (va - 0xFFFF_FFFF_8000_0000) & !0xFFF == va & 0x3FFF_F000
  {
  }

  lemma ImageSlots(va: bv64)
    requires 0xFFFF_FFFF_8000_0000 <= va <= 0xFFFF_FFFF_BFFF_FFFF
    ensures Slot(va >> 39) == 511 && Slot(va >> 30) == 510 && ImageOffset(va) == KernelPart(va)
  {
    hide Slot;
    ImageBits(va);
    LargeSlots(va >> 39);
    LargeSlots(va >> 30);
  }

  lemma PageSums(kernel: bv64, y: bv64)
    requires kernel & 0xFFF0_0000_0000_0FFF == 0 && y & !0x3FFF_F000 == 0
    ensures (kernel + y) & !0x8000_0000_0000_0FFF == kernel + y
  {
  }

  lemma PlusIsAligned(kernel: bv64, y: bv64)
    requires kernel & 0xFFF0_0000_0000_0FFF == 0 && y & !0x3FFF_F000 == 0
    ensures PageAddress(Plus(kernel, y)) == Plus(kernel, y)
  {
    PageSums(kernel, y);
  }

  lemma PartBits(va: bv64)
    ensures KernelPart(va) & !0x3FFF_F000 == 0
  {
  }

  lemma KernelPageIs(kernel: bv64, va: bv64)
    requires kernel & 0xFFF0_0000_0000_0FFF == 0
    ensures KernelPage(kernel, va) == FrameOf(Plus(kernel, KernelPart(va)))
  {
    hide FrameOf, Plus, KernelPart, PageAddress;
    PartBits(va);
    PlusIsAligned(kernel, KernelPart(va));
  }

  /** Every address of the first GiB above 0xffffffff80000000 translates to the kernel's physical base
      plus the offset of its page, for any page-aligned 52-bit base. */
  lemma KernelImageIsMapped(mem: map<Frame, Table>, at: Placement, kernel: bv64, va: bv64)
    requires Installed(mem, at, kernel) && Placed(at)
    requires 0xFFFF_FFFF_8000_0000 <= va <= 0xFFFF_FFFF_BFFF_FFFF && kernel & 0xFFF0_0000_0000_0FFF == 0
    ensures Walk(mem, FrameOf(at(Pml4)), PathOf(va)) == Found(FrameOf(Plus(kernel, ImageOffset(va))))
  {
    hide Walk, FrameOf, Slot, Placed, Installed, KernelPage, DirectPart, ImageOffset, KernelPart, Plus;
    Translation(mem, at, kernel, va);
    ImageSlots(va);
    KernelPageIs(kernel, va);
  }

  // ----- From the image to physical memory -----

  lemma PlaceInFrames(at: Placement, p: Place)
    ensures FrameOf(at(p)) in StaticFrames(at)
  {
    hide FrameOf;
  }

  lemma OverlaidAt(mem: map<Frame, Table>, at: Placement, kernel: bv64, p: Place)
    requires Placed(at)
    ensures FrameOf(at(p)) in Overlaid(mem, at, kernel)
    ensures Overlaid(mem, at, kernel)[FrameOf(at(p))] == Contents(at, kernel, p)
  {
    hide FrameOf, Content, StaticFrames, Contents;
    PlaceInFrames(at, p);
    assert forall q | FrameOf(at(q)) == FrameOf(at(p)) :: q == p;
  }

  /** Memory with the tables laid over it is as start-up assumes it. */
  lemma OverlaidInstalled(mem: map<Frame, Table>, at: Placement, kernel: bv64)
    requires Placed(at)
    ensures Installed(Overlaid(mem, at, kernel), at, kernel)
  {
    hide FrameOf, Content, StaticFrames, Overlaid, Placed;
    forall p, k: Index ensures InstalledAt(Overlaid(mem, at, kernel), at, kernel, p, k) {
      OverlaidAt(mem, at, kernel, p);
    }
  }

  lemma OverlaidKeeps(mem: map<Frame, Table>, at: Placement, kernel: bv64)
    ensures forall f | f in mem :: f in Overlaid(mem, at, kernel)
  {
    hide FrameOf, Content, StaticFrames, Contents;
  }

  /** Start-up from the image: in whatever physical memory the filled tables lie, addresses translate as Translation
      says; and over any memory there is one in which they do. */
  method StartPaging(at: Placement, kernel: bv64, ghost rest: map<Frame, Table>)
      returns (tables: StaticTables, ghost mem: map<Frame, Table>)
    requires Placed(at)
    ensures tables.Sized() && tables.HeldIn(mem, at) && (forall f | f in rest :: f in mem)
    ensures tables.Filled(at, kernel) && forall m :: tables.HeldIn(m, at) ==> Installed(m, at, kernel)
  {
    hide FrameOf, Content, StaticFrames, Read, Placed, Overlaid;
    tables := new StaticTables();
    tables.KernelInitializePaging(at, kernel);
    mem := Overlaid(rest, at, kernel);
    OverlaidInstalled(rest, at, kernel);
    OverlaidKeeps(rest, at, kernel);
    forall m | tables.HeldIn(m, at) ensures Installed(m, at, kernel) {
      forall p, k: Index ensures InstalledAt(m, at, kernel, p, k) {
        assert tables.Cell(p, k) == Content(at, kernel, p, k);
      }
    }
    forall p, k: Index ensures FrameOf(at(p)) in mem && Read(mem, FrameOf(at(p)), k) == tables.Cell(p, k) {
      assert InstalledAt(mem, at, kernel, p, k) && tables.Cell(p, k) == Content(at, kernel, p, k);
    }
  }
}
