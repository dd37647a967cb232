/** Start-up of the frame stack, and the first state of the memory manager: the static tables and the
    pushed frames satisfy the ownership invariant that every later step keeps. */
module BootState {
  import opened Prelude
  import opened PageEntry
  import opened PageTable
  import opened AddressSpace
  import opened AddressSpaceRuns
  import opened Mmu
  import opened Boot

  /** An entry of the memory map; kind 0 is usable memory. */
  datatype Region = Region(base: bv64, length: bv64, kind: nat)

  function End(r: Region): bv64 { r.base + r.length }

  function NextPage(a: bv64): bv64 { a + 0x1000 }

  /** Stepping by pages through aligned addresses, without wrapping round, reaches the end after n pages. */
  ghost predicate Covers(base: bv64, end: bv64, n: nat)
    decreases n
  {
    if n == 0 then FrameOf(base) == FrameOf(end)
    else && Aligned(base) && FrameOf(base) < FrameOf(end) && FrameOf(NextPage(base)) == FrameOf(base) + 0x1000
         && Covers(NextPage(base), end, n - 1)
  }

  /** A usable region is page aligned and spans n pages. */
  ghost predicate RegionOk(r: Region, n: nat) { r.kind == 0 ==> Covers(r.base, End(r), n) }

  /** The pages of a usable region, by address. */
  ghost predicate InRegion(r: Region, x: bv64) {
    r.kind == 0 && FrameOf(r.base) <= FrameOf(x) < FrameOf(End(r)) && (FrameOf(x) - FrameOf(r.base)) % 0x1000 == 0
  }

  ghost predicate Apart(r: Region, q: Region) {
    r.kind == 0 == q.kind ==> FrameOf(End(r)) <= FrameOf(q.base) || FrameOf(End(q)) <= FrameOf(r.base)
  }

  function PagesFrom(base: bv64, n: nat): (s: seq<bv64>)
    ensures |s| == n
    decreases n
  {
    if n == 0 then [] else [base] + PagesFrom(NextPage(base), n - 1)
  }

  function RegionFrames(r: Region, n: nat): seq<bv64> { if r.kind == 0 then PagesFrom(r.base, n) else [] }

  /** What is pushed, in order. */
  function Pushed(rs: seq<Region>, pages: seq<nat>): seq<bv64>
    requires |rs| == |pages|
  {
    if rs == [] then [] else Pushed(rs[..|rs| - 1], pages[..|rs| - 1]) + RegionFrames(rs[|rs| - 1], pages[|rs| - 1])
  }

  /** Exactly the page addresses of the range are pushed. */
  lemma {:induction false} PagesAreRange(base: bv64, end: bv64, n: nat, x: bv64)
    requires Covers(base, end, n)
    ensures FrameOf(base) <= FrameOf(end)
    ensures x in PagesFrom(base, n)
       <==> FrameOf(base) <= FrameOf(x) < FrameOf(end) && (FrameOf(x) - FrameOf(base)) % 0x1000 == 0
    ensures x in PagesFrom(base, n) ==> Aligned(x)
    decreases n
  {
    hide NextPage, FrameOf, Aligned;
    if n > 0 {
      PagesAreRange(NextPage(base), end, n - 1, x);
      if FrameOf(x) == FrameOf(base) {
        FrameIsInjective(x, base);
      }
    }
  }

  lemma {:induction false} PagesDistinct(base: bv64, end: bv64, n: nat)
    requires Covers(base, end, n)
    ensures NoDuplicates(PagesFrom(base, n))
    decreases n
  {
    hide NextPage, FrameOf, Aligned;
    if n > 0 {
      PagesDistinct(NextPage(base), end, n - 1);
      PagesAreRange(NextPage(base), end, n - 1, base);
      NoDuplicatesJoin([base], PagesFrom(NextPage(base), n - 1));
    }
  }

  /** A page is pushed exactly if it lies in a usable region. */
  lemma {:induction false} PushedIsUsable(rs: seq<Region>, pages: seq<nat>, x: bv64)
    requires |rs| == |pages| && forall i | 0 <= i < |rs| :: RegionOk(rs[i], pages[i])
    ensures x in Pushed(rs, pages) <==> exists i | 0 <= i < |rs| :: InRegion(rs[i], x)
    ensures x in Pushed(rs, pages) ==> Aligned(x)
    decreases |rs|
  {
    hide Covers, PagesFrom, End, FrameOf, Aligned;
    if rs != [] {
      var k := |rs| - 1;
      PushedIsUsable(rs[..k], pages[..k], x);
      if rs[k].kind == 0 {
        PagesAreRange(rs[k].base, End(rs[k]), pages[k], x);
      }
      assert x in RegionFrames(rs[k], pages[k]) <==> InRegion(rs[k], x);
    }
  }

  /** Disjoint regions push no page twice. */
  lemma {:induction false} PushedOnce(rs: seq<Region>, pages: seq<nat>)
    requires |rs| == |pages| && forall i | 0 <= i < |rs| :: RegionOk(rs[i], pages[i])
    requires forall i, j | 0 <= i < j < |rs| :: Apart(rs[i], rs[j])
    ensures NoDuplicates(Pushed(rs, pages))
    decreases |rs|
  {
    hide Covers, PagesFrom, End, FrameOf, Aligned, NoDuplicates;
    if rs == [] {
      ShortHasNoDuplicates<bv64>([]);
    } else {
      var k := |rs| - 1;
      PushedOnce(rs[..k], pages[..k]);
      var last := RegionFrames(rs[k], pages[k]);
      if rs[k].kind == 0 {
        PagesDistinct(rs[k].base, End(rs[k]), pages[k]);
      } else {
        ShortHasNoDuplicates<bv64>([]);
      }
      forall x | x in Pushed(rs[..k], pages[..k]) ensures x !in last {
        PushedIsUsable(rs[..k], pages[..k], x);
        if rs[k].kind == 0 {
          PagesAreRange(rs[k].base, End(rs[k]), pages[k], x);
        }
      }
      NoDuplicatesJoin(Pushed(rs[..k], pages[..k]), last);
    }
  }

  /** KernelInitializeMemStack. */
  method KernelInitializeMemStack(memList: array<bv64>, entries: seq<Region>, ghost pages: seq<nat>) returns (pos: nat)
    requires |pages| == |entries| && forall i | 0 <= i < |entries| :: RegionOk(entries[i], pages[i])
    requires |Pushed(entries, pages)| <= memList.Length
    modifies memList
    ensures pos == |Pushed(entries, pages)| && memList[..pos] == Pushed(entries, pages)
    ensures memList[pos..] == old(memList[pos..])
  {
    hide RegionOk, PagesFrom, Pushed, RegionFrames;
    pos := 0;
    var i := 0;
    PushedNone(entries, pages);
    while i < |entries|
      invariant i <= |entries| && pos == |Pushed(entries[..i], pages[..i])| <= memList.Length
      invariant memList[..pos] == Pushed(entries[..i], pages[..i]) && memList[pos..] == old(memList[pos..])
    {
      PushedGrows(entries, pages, i);
      FramesLength(entries[i], pages[i]);
      var before := pos;
      if entries[i].kind == 0 {
        pos := PushRegion(memList, pos, entries[i], pages[i]);
      }
      assert memList[..pos] == memList[..before] + memList[before..pos];
      i := i + 1;
    }
    assert entries[..i] == entries && pages[..i] == pages;
  }

  lemma PushedNone(rs: seq<Region>, pages: seq<nat>)
    requires |rs| == |pages|
    ensures Pushed(rs[..0], pages[..0]) == []
  {
  }

  lemma FramesLength(r: Region, n: nat)
    ensures |RegionFrames(r, n)| == (if r.kind == 0 then n else 0)
    ensures r.kind != 0 ==> RegionFrames(r, n) == []
  {
  }

  /** The inner loop over the pages of one region. */
  method PushRegion(memList: array<bv64>, start: nat, r: Region, ghost n: nat) returns (pos: nat)
    requires RegionOk(r, n) && r.kind == 0 && start + n <= memList.Length
    modifies memList
    ensures pos == start + n && memList[..start] == old(memList[..start])
    ensures memList[start..pos] == RegionFrames(r, n) && memList[pos..] == old(memList[pos..])
  {
    hide FrameOf, Aligned, NextPage, Covers, PagesFrom, End;
    pos := start;
    var base := r.base;
    ghost var left: int := n;
    while FrameOf(base) < FrameOf(End(r))
      invariant 0 <= left <= n && pos == start + n - left && Covers(base, End(r), left)
      invariant memList[..start] == old(memList[..start]) && memList[pos..] == old(memList[pos..])
      invariant memList[start..pos] + PagesFrom(base, left) == PagesFrom(r.base, n)
      decreases left
    {
      CoversStep(base, End(r), left);
      ghost var done, rest := memList[start..pos], PagesFrom(NextPage(base), left - 1);
      memList[pos] := base;
      assert memList[start..pos] == done;
      pos := pos + 1;
      assert memList[start..pos] == done + [base];
      assert done + ([base] + rest) == done + [base] + rest;
      base := NextPage(base);
      left := left - 1;
    }
    CoversStep(base, End(r), left);
  }

  lemma CoversStep(base: bv64, end: bv64, n: nat)
    requires Covers(base, end, n)
    ensures FrameOf(base) < FrameOf(end) <==> n > 0
    ensures n == 0 ==> PagesFrom(base, n) == []
    ensures n > 0 ==>
              Covers(NextPage(base), end, n - 1) && PagesFrom(base, n) == [base] + PagesFrom(NextPage(base), n - 1)
  {
    hide FrameOf, NextPage, Aligned;
  }

  lemma {:induction false} PushedGrows(rs: seq<Region>, pages: seq<nat>, i: nat)
    requires |rs| == |pages| && i < |rs|
    ensures Pushed(rs[..i + 1], pages[..i + 1]) == Pushed(rs[..i], pages[..i]) + RegionFrames(rs[i], pages[i])
    ensures |Pushed(rs[..i + 1], pages[..i + 1])| <= |Pushed(rs, pages)|
    decreases |rs|
  {
    hide RegionFrames;
    assert rs[..i + 1][..i] == rs[..i] && pages[..i + 1][..i] == pages[..i];
    if i + 1 < |rs| {
      var k := |rs| - 1;
      PushedGrows(rs[..k], pages[..k], i);
      assert rs[..k][..i + 1] == rs[..i + 1] && pages[..k][..i + 1] == pages[..i + 1];
    } else {
      assert rs[..i + 1] == rs && pages[..i + 1] == pages;
    }
  }

  // ----- The first state -----

  /** What each piece of the static tables is used for. */
  ghost function Role(at: Placement, p: Place): Use {
    match p
    case Pml4 => Root
    case KernelHpd => Node([511], FrameOf(at(Pml4)))
    case KernelLpd => Node([511, 510], FrameOf(at(KernelHpd)))
    case KernelPt(i) => Node([511, 510, i], FrameOf(at(KernelLpd)))
    case HhdmHpd => Node([256], FrameOf(at(Pml4)))
    case HhdmLpd(j) => var k: Index := j; Node([256, k], FrameOf(at(HhdmHpd)))
    case HhdmPt(j, i) => Node([256, j, i], FrameOf(at(HhdmLpd(j))))
    case _ => Data
  }

  ghost predicate IsStatic(at: Placement, f: Frame) { exists p :: FrameOf(at(p)) == f }

  ghost function UseOf(at: Placement, f: Frame): Use {
    if IsStatic(at, f) then (var p :| FrameOf(at(p)) == f; Role(at, p)) else Data
  }

  ghost predicate IsPushed(list: seq<bv64>, f: Frame) { exists i | 0 <= i < |list| :: FrameOf(list[i]) == f }

  /** Every frame of memory that is not pushed is in use: the static tables as tables, the rest as data. */
  ghost function FirstUse(mem: map<Frame, Table>, list: seq<bv64>, at: Placement): map<Frame, Use> {
    map f | f in mem && !IsPushed(list, f) :: UseOf(at, f)
  }

  ghost function FirstState(mem: map<Frame, Table>, list: seq<bv64>, at: Placement): State {
    State(mem, list, 0, FirstUse(mem, list, at))
  }

  /** The pushed frames are aligned, distinct, part of memory, and none of them belongs to the static tables. */
  ghost predicate PushedOk(mem: map<Frame, Table>, list: seq<bv64>, at: Placement) {
    && NoDuplicates(list)
    && (forall i | 0 <= i < |list| :: Aligned(list[i]) && FrameOf(list[i]) in mem && !IsStatic(at, FrameOf(list[i])))
  }

  lemma StaticUse(mem: map<Frame, Table>, list: seq<bv64>, at: Placement, kernel: bv64, p: Place)
    requires Installed(mem, at, kernel) && Placed(at) && PushedOk(mem, list, at)
    ensures var use := FirstUse(mem, list, at); FrameOf(at(p)) in use && use[FrameOf(at(p))] == Role(at, p)
  {
    hide FrameOf, Role, Content, Aligned, Read;
    assert IsStatic(at, FrameOf(at(p)));
    assert InstalledAt(mem, at, kernel, p, 0);
  }

  lemma TablesAreStatic(mem: map<Frame, Table>, list: seq<bv64>, at: Placement, t: Frame) returns (p: Place)
    requires IsTable(FirstState(mem, list, at), t) && Placed(at)
    ensures FrameOf(at(p)) == t && Role(at, p) == FirstUse(mem, list, at)[t]
  {
    hide FrameOf, Role, Aligned;
    p :| FrameOf(at(p)) == t && Role(at, p) == UseOf(at, t);
  }

  lemma FirstFree(mem: map<Frame, Table>, list: seq<bv64>, at: Placement)
    requires PushedOk(mem, list, at)
    ensures FreeOk(FirstState(mem, list, at)) && Accounted(FirstState(mem, list, at))
    ensures InMemory(FirstState(mem, list, at))
  {
    hide FrameOf, UseOf, Aligned, IsStatic;
    var s := FirstState(mem, list, at);
    forall i, j | 0 <= i < j < |list| ensures FrameOf(list[i]) != FrameOf(list[j]) {
      if FrameOf(list[i]) == FrameOf(list[j]) {
        FrameIsInjective(list[i], list[j]);
      }
    }
    forall f | f in mem && f !in s.use ensures IsFree(s, f) {
      assert IsPushed(list, f);
    }
  }

  /** The entry that leads to a static table. */
  function ParentOf(p: Place): (Place, Index) {
    match p
    case KernelLpd => (KernelHpd, 510)
    case KernelPt(i) => (KernelLpd, i)
    case HhdmHpd => (Pml4, 256)
    case HhdmLpd(j) => (HhdmHpd, j)
    case HhdmPt(j, i) => (HhdmLpd(j), i)
    case _ => (Pml4, 511)
  }

  lemma ParentEntry(at: Placement, kernel: bv64, p: Place)
    requires Role(at, p).Node?
    ensures var (q, k) := ParentOf(p);
            && (Content(at, kernel, q, k) == Entry(at(p), 3) || Content(at, kernel, q, k) == Entry(at(p), 7))
            && Role(at, p) == Node(HomePath(Role(at, q)) + [k], FrameOf(at(q)))
            && !Role(at, q).Data? && |HomePath(Role(at, q))| < 3
  {
    hide Entry, FrameOf;
  }

  lemma FirstNode(mem: map<Frame, Table>, list: seq<bv64>, at: Placement, kernel: bv64, p: Place)
    requires Installed(mem, at, kernel) && Placed(at) && PushedOk(mem, list, at) && Role(at, p).Node?
    ensures NodeOk(FirstState(mem, list, at), Role(at, p).path, Role(at, p).parent, FrameOf(at(p)))
  {
    hide Entry, FrameOf, Role, Content, Installed, Placed, PushedOk, FirstUse, Present, TableOf, EntryFlags, Read;
    var (q, k) := ParentOf(p);
    FlagsAreFlags();
    ParentEntry(at, kernel, p);
    StaticUse(mem, list, at, kernel, q);
    EntryAt(mem, at, kernel, q, k, p, if Content(at, kernel, q, k) == Entry(at(p), 3) then 3 else 7);
    var path := Role(at, p).path;
    assert path[..|path| - 1] == HomePath(Role(at, q));
  }

  /** Where a present entry above the last level leads. */
  lemma ChildEntry(at: Placement, kernel: bv64, p: Place, k: Index) returns (q: Place)
    requires !Role(at, p).Data? && |HomePath(Role(at, p))| < 3 && Content(at, kernel, p, k) != 0
    ensures ParentOf(q) == (p, k) && Role(at, q).Node?
  {
    match p {
      case Pml4 => q := if k == 511 then KernelHpd else HhdmHpd;
      case KernelHpd => q := KernelLpd;
      case KernelLpd => q := KernelPt(k);
      case HhdmHpd => q := HhdmLpd(k);
      case HhdmLpd(j) => q := HhdmPt(j, k);
      case KernelPt(i) => q := KernelPt(i);
      case HhdmPt(j, i) => q := HhdmPt(j, i);
      case _ => q := Pml4;
    }
  }

  lemma FirstEdge(mem: map<Frame, Table>, list: seq<bv64>, at: Placement, kernel: bv64, p: Place, k: Index, c: Frame)
    requires Installed(mem, at, kernel) && Placed(at) && PushedOk(mem, list, at)
    requires !Role(at, p).Data? && |HomePath(Role(at, p))| < 3 && Leads(mem, FrameOf(at(p)), k, c)
    ensures FrameOf(at(p)) in FirstState(mem, list, at).use && ChildOk(FirstState(mem, list, at), FrameOf(at(p)), k, c)
  {
    hide Entry, FrameOf, Role, Content, Placed, PushedOk, FirstUse, Present, TableOf, EntryFlags;
    FlagsAreFlags();
    ZeroIsAbsent();
    StaticUse(mem, list, at, kernel, p);
    assert InstalledAt(mem, at, kernel, p, k);
    var q := ChildEntry(at, kernel, p, k);
    ParentEntry(at, kernel, q);
    StaticUse(mem, list, at, kernel, q);
    EntryAt(mem, at, kernel, p, k, q, if Content(at, kernel, p, k) == Entry(at(q), 3) then 3 else 7);
  }

  /** After start-up frame ownership holds, and the kernel's root is a root: the runs of map, unmap and
      fork start here. */
  lemma FirstStateInv(mem: map<Frame, Table>, list: seq<bv64>, at: Placement, kernel: bv64)
    requires Installed(mem, at, kernel) && Placed(at) && PushedOk(mem, list, at)
    ensures Inv(FirstState(mem, list, at)) && IsRoot(FirstState(mem, list, at), FrameOf(at(Pml4)))
  {
    hide FrameOf, Content, Installed, Placed, PushedOk, FirstUse, Leads, NodeOk, ChildOk, FreeOk, Accounted, InMemory;
    var s := FirstState(mem, list, at);
    FirstFree(mem, list, at);
    StaticUse(mem, list, at, kernel, Pml4);
    forall t | IsNode(s, t) ensures NodeOk(s, s.use[t].path, s.use[t].parent, t) {
      var p := TablesAreStatic(mem, list, at, t);
      FirstNode(mem, list, at, kernel, p);
    }
    forall t, i: Index, c | IsTable(s, t) && Depth(s, t) < 3 && Leads(s.mem, t, i, c) ensures ChildOk(s, t, i, c) {
      var p := TablesAreStatic(mem, list, at, t);
      FirstEdge(mem, list, at, kernel, p, i, c);
    }
  }

  /** Whatever legal run follows start-up: frame ownership holds, every frame that was pushed is either
      free or used for exactly one thing, and every lookup agrees with the flat model. */
  lemma RunsFromStart(mem: map<Frame, Table>, list: seq<bv64>, at: Placement, kernel: bv64, ops: seq<Op>, i: nat,
                      x: Frame, q: Path)
    requires Installed(mem, at, kernel) && Placed(at) && PushedOk(mem, list, at)
    requires LegalRun(FirstState(mem, list, at), ops)
    ensures var end := Exec(FirstState(mem, list, at), ops);
            && Inv(end)
            && (i < |list| ==> (FrameOf(list[i]) in end.use <==> !IsFree(end, FrameOf(list[i]))))
            && (IsRoot(end, x) && |q| == 4 ==>
                  && WellFormed(ops)
                  && PageAt(end, x, q) == FlatLookup(FlatExec(FlatOf(FirstState(mem, list, at)), ops), x, q))
  {
    hide Inv, FrameOf, Installed, Placed, LegalRun, Exec, FirstUse, FlatOf, FlatExec, FlatLookup, IsFree, WellFormed,
         IsStatic, Aligned;
    var s := FirstState(mem, list, at);
    FirstStateInv(mem, list, at, kernel);
    RunRefines(s, ops);
    if i < |list| {
      RunPartition(s, ops, FrameOf(list[i]));
    }
    if IsRoot(Exec(s, ops), x) && |q| == 4 {
      RunLookup(s, ops, x, q);
    }
  }

  lemma HeldIsInstalled(tables: StaticTables, memory: map<Frame, Table>, at: Placement, kernel: bv64)
    requires tables.Sized() && tables.Filled(at, kernel) && tables.HeldIn(memory, at)
    ensures Installed(memory, at, kernel)
  {
    hide Content, Read, FrameOf;
    forall p, k: Index ensures InstalledAt(memory, at, kernel, p, k) {
      assert tables.Cell(p, k) == Content(at, kernel, p, k);
    }
  }

  /** The frame stack and the manager over a memory with the tables. */
  method MakeMemory(memory: map<Frame, Table>, memList: array<bv64>, entries: seq<Region>, ghost pages: seq<nat>,
                    at: Placement, ghost kernel: bv64, hhdm: bv64, kernelPml4: bv64) returns (mm: MemoryManager)
    requires |pages| == |entries| && forall i | 0 <= i < |entries| :: RegionOk(entries[i], pages[i])
    requires forall i, j | 0 <= i < j < |entries| :: Apart(entries[i], entries[j])
    requires memList.Length == 0x40000 && |Pushed(entries, pages)| <= memList.Length
    requires Installed(memory, at, kernel) && Placed(at)
    requires forall i, x | 0 <= i < |entries| && InRegion(entries[i], x) ::
               FrameOf(x) in memory && !IsStatic(at, FrameOf(x))
    requires forall f, a: bv64 | f in memory && FrameOf(a) == f :: Disjoint(a, hhdm) && Direct(a, hhdm) != kernelPml4
    modifies memList
    ensures fresh(mm) && mm.Valid() && mm.kernelFrame == FrameOf(at(Pml4)) && mm.memory == memory
    ensures mm.pushed == |Pushed(entries, pages)| && mm.memList[..mm.pushed] == Pushed(entries, pages)
    ensures mm.stackPosition == 0
  {
    hide Installed, Placed, Apart, RegionOk, FrameOf, Disjoint, Direct, Aligned, Inv, FirstUse;
    var n := KernelInitializeMemStack(memList, entries, pages);
    ghost var list := Pushed(entries, pages);
    PushedOnce(entries, pages);
    forall i | 0 <= i < |list|
      ensures Aligned(list[i]) && FrameOf(list[i]) in memory && !IsStatic(at, FrameOf(list[i]))
    {
      PushedIsUsable(entries, pages, list[i]);
    }
    FirstStateInv(memory, list, at, kernel);
    mm := new MemoryManager(memory, memList, hhdm, kernelPml4, FrameOf(at(Pml4)), n, FirstUse(memory, list, at));
    assert mm.View() == FirstState(memory, list, at);
  }

  /** The memory manager as start-up leaves it, over a physical memory that holds the filled tables. */
  method StartMemory(ghost tables: StaticTables, memory: map<Frame, Table>, memList: array<bv64>, entries: seq<Region>,
                     ghost pages: seq<nat>, at: Placement, ghost kernel: bv64, hhdm: bv64, kernelPml4: bv64)
      returns (mm: MemoryManager)
    requires |pages| == |entries| && forall i | 0 <= i < |entries| :: RegionOk(entries[i], pages[i])
    requires forall i, j | 0 <= i < j < |entries| :: Apart(entries[i], entries[j])
    requires memList.Length == 0x40000 && |Pushed(entries, pages)| <= memList.Length
    requires tables.Sized() && tables.Filled(at, kernel) && tables.HeldIn(memory, at) && Placed(at)
    requires forall i, x | 0 <= i < |entries| && InRegion(entries[i], x) ::
               FrameOf(x) in memory && !IsStatic(at, FrameOf(x))
    requires forall f, a: bv64 | f in memory && FrameOf(a) == f :: Disjoint(a, hhdm) && Direct(a, hhdm) != kernelPml4
    modifies memList
    ensures fresh(mm) && mm.Valid() && mm.kernelFrame == FrameOf(at(Pml4)) && mm.memory == memory
    ensures mm.pushed == |Pushed(entries, pages)| && mm.memList[..mm.pushed] == Pushed(entries, pages)
    ensures mm.stackPosition == 0
  {
    hide StaticTables.Sized, StaticTables.Filled, StaticTables.HeldIn, Installed, Placed, Apart, RegionOk, FrameOf,
         Disjoint, Direct, InRegion;
    HeldIsInstalled(tables, memory, at, kernel);
    mm := MakeMemory(memory, memList, entries, pages, at, kernel, hhdm, kernelPml4);
  }
}
