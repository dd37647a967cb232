/** The memory manager as the kernel runs it: physical memory, the `mem_list` stack, and the routines
    that read and write page tables through direct-map pointers, each proved against the functions
    of PageTable and AddressSpace. */
module Mmu {
  import opened Prelude
  import opened PageEntry
  import opened PageTable
  import opened AddressSpace
  import opened AccessRights

  /** What the lookup returns for a walk that misses at a level: -level, in 64 bits. */
  function ErrorCode(level: nat): bv64
    requires 1 <= level <= 4
  {
    if level == 4 then 0xFFFF_FFFF_FFFF_FFFC
    else if level == 3 then 0xFFFF_FFFF_FFFF_FFFD
    else if level == 2 then 0xFFFF_FFFF_FFFF_FFFE
    else 0xFFFF_FFFF_FFFF_FFFF
  }

  /** What KernelUnmapPage returns for what the walk finds. */
  function UnmapCode(l: Lookup): int {
    match l
    case Missing(level) => 0 - level
    case Found(_) => 0
  }

  /** The walk passes the same flags as before, and the given ones at every level that was missing. */
  ghost predicate NewEntries(mem: map<Frame, Table>, mem': map<Frame, Table>, t: Frame, path: Path, value: bv64)
    requires |path| == 4
  {
    Trail(mem', t, path) == Trail(mem, t, path) + seq(4 - |Trail(mem, t, path)|, _ => value)
  }

  /** The lookup's code for a miss at level l is -l in 64 bits, the code the unmapping returns, and no page. */
  lemma CodesAgree(level: nat, w: bv64)
    requires 1 <= level <= 4
    ensures ErrorCode(level) as int == 0x1_0000_0000_0000_0000 - level
    ensures ErrorCode(level) as int == UnmapCode(Missing(level)) % 0x1_0000_0000_0000_0000
    ensures PageAddress(w) != ErrorCode(level)
  {
    hide PageAddress;
    PageIsNoErrorCode(w, ErrorCode(level));
  }

  class MemoryManager {
    var memory: map<Frame, Table>
    const memList: array<bv64>
    var stackPosition: nat
    const hhdm: bv64
    const kernelPml4: bv64
    const kernelFrame: Frame
    ghost var pushed: nat
    ghost var use: map<Frame, Use>

    /** The frame behind a pointer: the kernel's root by its own address, all else by the direct map. */
    function FrameAt(pointer: bv64): Frame {
      if pointer == kernelPml4 then kernelFrame else FrameOf(Physical(pointer, hhdm))
    }

    /** The address of the frame shares no bit with the direct-map offset. */
    ghost predicate InDirectMap(f: Frame) {
      forall a: bv64 | FrameOf(a) == f :: Disjoint(a, hhdm) && Direct(a, hhdm) != kernelPml4
    }

    ghost predicate Sized()
      reads this, memList
    {
      && memList.Length == 0x40000 && pushed <= memList.Length
      && (forall f | f in memory :: InDirectMap(f))
    }

    ghost function View(): State
      requires Sized()
      reads this, memList
    {
      State(memory, memList[..pushed], stackPosition, use)
    }

    ghost predicate Valid()
      reads this, memList
    {
      Sized() && Inv(View()) && IsRoot(View(), kernelFrame)
    }

    constructor (memory: map<Frame, Table>, memList: array<bv64>, hhdm: bv64, kernelPml4: bv64, kernelFrame: Frame,
                 ghost pushed: nat, ghost use: map<Frame, Use>)
      ensures this.memory == memory && this.memList == memList && stackPosition == 0 && this.hhdm == hhdm
      ensures this.kernelPml4 == kernelPml4 && this.kernelFrame == kernelFrame && this.pushed == pushed
      ensures this.use == use
    {
      this.memory, this.memList, this.stackPosition, this.hhdm := memory, memList, 0, hhdm;
      this.kernelPml4, this.kernelFrame, this.pushed, this.use := kernelPml4, kernelFrame, pushed, use;
    }

    /** KernelAllocateFrame; what the caller uses the frame for is recorded. */
    method AllocateFrame(ghost u: Use) returns (a: bv64)
      requires Sized() && stackPosition < pushed
      modifies `stackPosition, `use
      ensures Sized() && a == NextAddress(old(View()))
      ensures View() == old(View()).(pos := old(stackPosition) + 1, use := old(use)[FrameOf(a) := u])
    {
      a := memList[stackPosition];
      stackPosition := stackPosition + 1;
      use := use[FrameOf(a) := u];
    }

    lemma PointerLeads(a: bv64)
      requires InDirectMap(FrameOf(a))
      ensures FrameAt(Direct(a, hhdm)) == FrameOf(a) && FrameAt(DirectSum(a, hhdm)) == FrameOf(a)
    {
      hide FrameOf, Direct, DirectSum, Physical, Disjoint;
      DirectMapRoundTrip(a, hhdm);
    }

    /** The block both mapping routines repeat for each level: read entry i, make the table if the
        entry is absent, and return a pointer to the table. */
    method NextTable(table: bv64, i: Index, value: bv64) returns (next: bv64)
      requires Sized() && FrameAt(table) in memory
      requires var w := memory[FrameAt(table)][i];
               if Present(w) then TableOf(w) in memory
               else stackPosition < pushed && Aligned(memList[stackPosition])
                    && FrameOf(memList[stackPosition]) in memory
                    && FrameOf(memList[stackPosition]) != FrameAt(table) && FrameAt(table) in use
      modifies `memory, `stackPosition, `use
      ensures Sized()
      ensures var s, t := old(View()), FrameAt(table);
              if Present(Read(s.mem, t, i)) then
                View() == s && FrameAt(next) == TableOf(Read(s.mem, t, i))
              else
                View() == Link(s, t, i, value) && FrameAt(next) == NextFrame(s)
      ensures !Present(Read(old(memory), FrameAt(table), i)) && EntryFlags(value) ==>
                Flags(Read(memory, FrameAt(table), i)) == value
                && TableOf(Read(memory, FrameAt(table), i)) == NextFrame(old(View()))
    {
      hide FrameOf, Direct, DirectSum, Physical, Disjoint, Present, Entry, TableAddress, Aligned, InDirectMap, Flags,
           EntryFlags;
      var address := memory[FrameAt(table)][i];
      if !Present(address) {
        address := AllocateFrame(Node(HomePath(use[FrameAt(table)]) + [i], FrameAt(table)));
        PointerLeads(address);
        memory := memory[FrameAt(Direct(address, hhdm)) := ZeroTable()];
        memory := memory[FrameAt(table) := memory[FrameAt(table)][i := Entry(address, value)]];
        AlignedAddress(address);
        if EntryFlags(value) {
          EntryCarries(address, value);
          EntryRoundTrip(address, value);
        }
      }
      PointerLeads(TableAddress(address));
      next := Direct(TableAddress(address), hhdm);
    }

    /** NextTable is one step of MapPath. */
    lemma NextTableStep(s: State, s1: State, t: Frame, next: Frame, path: Path, pa: bv64, flags: bv64)
      requires CanMap(s, t, path, flags) && |path| > 1
      requires if Present(Read(s.mem, t, path[0])) then s1 == s && next == TableOf(Read(s.mem, t, path[0]))
               else s1 == Link(s, t, path[0], flags) && next == NextFrame(s)
      ensures CanMap(s1, next, path[1..], flags)
      ensures MapPath(s, t, path, pa, flags) == MapPath(s1, next, path[1..], pa, flags)
    {
      hide Present, TableOf, Entry, FrameOf, EntryFlags, Inv, Link, Walk, Depth;
      if Present(Read(s.mem, t, path[0])) {
        StepCanMap(s, t, path, flags);
      } else {
        LinkCanMap(s, t, path, flags);
      }
    }

    /** The mapping routines may call NextTable: the table it needs is there, or a frame is free. */
    lemma MayStep(s: State, t: Frame, path: Path, flags: bv64)
      requires CanMap(s, t, path, flags) && |path| > 1
      ensures t in s.mem && t in s.use
      ensures var w := Read(s.mem, t, path[0]);
              if Present(w) then TableOf(w) in s.mem
              else s.pos < |s.list| && Aligned(s.list[s.pos]) && NextFrame(s) in s.mem && NextFrame(s) != t
    {
      hide Present, TableOf, Entry, FrameOf, EntryFlags, NodesOk, Aligned, Accounted;
      var w := Read(s.mem, t, path[0]);
      if Present(w) {
        StepIsDeeper(s, t, path[0], TableOf(w));
      } else {
        NextIsUnused(s);
      }
    }

    /** NextTable along a path: what is left to map, from the table it returns, is the same mapping. */
    method NextLevel(table: bv64, ghost path: Path, i: Index, value: bv64, ghost pa: bv64) returns (next: bv64)
      requires Sized() && CanMap(View(), FrameAt(table), path, value) && |path| > 1 && path[0] == i
      modifies `memory, `stackPosition, `use
      ensures Sized() && CanMap(View(), FrameAt(next), path[1..], value)
      ensures MapPath(View(), FrameAt(next), path[1..], pa, value)
                == MapPath(old(View()), FrameAt(table), path, pa, value)
    {
      hide FrameOf, Physical, Present, Entry, TableOf, Aligned, InDirectMap, EntryFlags, Inv, CanMap, MapPath, Link,
           Walk;
      ghost var s, t := View(), FrameAt(table);
      MayStep(s, t, path, value);
      next := NextTable(table, i, value);
      NextTableStep(s, View(), t, FrameAt(next), path, pa, value);
    }

    /** The three table levels and the leaf, which KernelMapPage and KernelMapMmio share. */
    method MapAt(root: bv64, va: bv64, pa: bv64, value: bv64)
      requires Valid() && IsRoot(View(), FrameAt(root))
      requires CanMap(View(), FrameAt(root), PathOf(va), value)
      modifies `memory, `stackPosition, `use
      ensures Valid()
      ensures View() == MapPath(old(View()), FrameAt(root), PathOf(va), pa, value)
    {
      hide FrameOf, Physical, Present, Entry, InDirectMap, EntryFlags, PathOf, Inv, CanMap, Link, Walk;
      ghost var s, t := View(), FrameAt(root);
      MapKeepsInv(s, t, PathOf(va), pa, value);
      MapRoots(s, t, PathOf(va), pa, value, kernelFrame);
      hide MapPath;
      var path := PathOf(va);
      var hpd := NextLevel(root, path, path[0], value, pa);
      var lpd := NextLevel(hpd, path[1..], path[1], value, pa);
      assert path[1..][1..] == path[2..];
      var pt := NextLevel(lpd, path[2..], path[2], value, pa);
      assert path[2..][1..] == path[3..] && |path[3..]| == 1;
      InMemoryOf(View(), FrameAt(pt), path[3..], value);
      LastStep(View(), FrameAt(pt), path[3..], pa, value);
      if !Present(memory[FrameAt(pt)][path[3]]) {
        memory := memory[FrameAt(pt) := memory[FrameAt(pt)][path[3] := Entry(pa, value)]];
      }
    }

    lemma LastStep(s: State, t: Frame, path: Path, pa: bv64, flags: bv64)
      requires |path| == 1 && t in s.mem
      ensures MapPath(s, t, path, pa, flags)
           == if Present(s.mem[t][path[0]]) then s
              else s.(mem := s.mem[t := s.mem[t][path[0] := Entry(pa, flags)]])
    {
    }

    lemma InMemoryOf(s: State, t: Frame, path: Path, flags: bv64)
      requires CanMap(s, t, path, flags)
      ensures t in s.mem
    {
    }

    /** KernelMapPage. */
    method MapPage(root: bv64, va: bv64, pa: bv64, user: bool)
      requires Valid()
      requires root != 0 ==>
        IsRoot(View(), FrameAt(root)) && CanMap(View(), FrameAt(root), PathOf(va), if user then 7 else 3)
      modifies `memory, `stackPosition, `use
      ensures Valid()
      ensures View() == if root == 0 then old(View())
                        else MapPath(old(View()), FrameAt(root), PathOf(va), pa, if user then 7 else 3)
      ensures root != 0 && Walk(old(memory), FrameAt(root), PathOf(va)).Missing? && Aligned(pa) ==>
        && Walk(memory, FrameAt(root), PathOf(va)) == Found(FrameOf(pa))
        && NewEntries(old(memory), memory, FrameAt(root), PathOf(va), if user then 7 else 3)
        && Rights(Trail(memory, FrameAt(root), PathOf(va)))
           == Rights(Trail(old(memory), FrameAt(root), PathOf(va))) & (if user then 6 else 2)
    {
      hide CanMap, MapPath, Walk, Aligned, PathOf, FrameOf, Rights, Trail, Inv, FrameAt;
      var value: bv64 := if user then 7 else 3;
      if root == 0 {
        return;
      }
      ghost var s := View();
      MapAt(root, va, pa, value);
      if Walk(s.mem, FrameAt(root), PathOf(va)).Missing? && Aligned(pa) {
        MappedPage(s, FrameAt(root), PathOf(va), pa, value);
        assert value & 6 == if user then 6 else 2;
      }
    }

    lemma MappedPage(s: State, r: Frame, path: Path, pa: bv64, value: bv64)
      requires CanMap(s, r, path, value) && IsRoot(s, r) && |path| == 4
      requires Walk(s.mem, r, path).Missing? && Aligned(pa)
      ensures var mem := MapPath(s, r, path, pa, value).mem;
              && Walk(mem, r, path) == Found(FrameOf(pa)) && NewEntries(s.mem, mem, r, path, value)
              && Rights(Trail(mem, r, path)) == Rights(Trail(s.mem, r, path)) & (value & 6)
    {
      hide CanMap, MapPath, Walk, FrameOf, Rights, Trail, PageOf, PageAddress;
      MapGivesRights(s, r, path, pa, value, r);
      MapEffect(s, r, path, pa, value, r, path);
      AlignedPage(pa);
    }

    /** KernelMapMmio: always the kernel's root, with the device-memory flags. */
    method MapMmio(va: bv64, pa: bv64)
      requires Valid() && CanMap(View(), kernelFrame, PathOf(va), 0x1B)
      modifies `memory, `stackPosition, `use
      ensures Valid()
      ensures View() == if kernelPml4 == 0 then old(View())
                        else MapPath(old(View()), kernelFrame, PathOf(va), pa, 0x1B)
      ensures kernelPml4 != 0 && Walk(old(memory), kernelFrame, PathOf(va)).Missing? && Aligned(pa) ==>
        && Walk(memory, kernelFrame, PathOf(va)) == Found(FrameOf(pa))
        && NewEntries(old(memory), memory, kernelFrame, PathOf(va), 0x1B)
        && Rights(Trail(memory, kernelFrame, PathOf(va)))
           == Rights(Trail(old(memory), kernelFrame, PathOf(va))) & 2
    {
      hide CanMap, MapPath, Walk, Aligned, PathOf, FrameOf, Rights, Trail, Inv;
      if kernelPml4 == 0 {
        return;
      }
      ghost var s := View();
      MapAt(kernelPml4, va, pa, 0x1B);
      if Walk(s.mem, kernelFrame, PathOf(va)).Missing? && Aligned(pa) {
        MappedPage(s, kernelFrame, PathOf(va), pa, 0x1B);
        assert 0x1B & 6 == 2 as bv64;
      }
    }

    /** A pointer to the table an entry leads to. */
    lemma EntryPointer(t: Frame, i: Index, w: bv64)
      requires Sized() && Inv(View()) && IsTable(View(), t) && Depth(View(), t) < 3
      requires Read(memory, t, i) == w && Present(w)
      ensures FrameAt(Direct(TableAddress(w), hhdm)) == TableOf(w) == FrameAt(DirectSum(TableAddress(w), hhdm))
      ensures IsTable(View(), TableOf(w)) && Depth(View(), TableOf(w)) == Depth(View(), t) + 1
      ensures TableOf(w) in memory
    {
      hide FrameOf, Direct, DirectSum, Physical, Present, TableAddress, InDirectMap, FreeOk, NodesOk, EdgesOk,
           Accounted, FrameAt;
      StepIsDeeper(View(), t, i, TableOf(w));
      PointerLeads(TableAddress(w));
    }

    /** The walk of a full path, level by level. */
    lemma WalkUnrolled(mem: map<Frame, Table>, t: Frame, p: Path)
      requires |p| == 4
      ensures var hpd := Read(mem, t, p[0]); var lpd := Read(mem, TableOf(hpd), p[1]);
              var pt := Read(mem, TableOf(lpd), p[2]); var page := Read(mem, TableOf(pt), p[3]);
              Walk(mem, t, p) == if !Present(hpd) then Missing(4) else if !Present(lpd) then Missing(3)
                                 else if !Present(pt) then Missing(2) else if !Present(page) then Missing(1)
                                 else Found(PageOf(page))
    {
      hide Present, TableOf, PageOf, Read;
      var u := Read(mem, TableOf(Read(mem, t, p[0])), p[1]);
      assert p[1..][0] == p[1] && p[1..][1..] == p[2..] && p[2..][0] == p[2] && p[2..][1..] == p[3..];
      assert p[3..][0] == p[3];
      assert Walk(mem, TableOf(Read(mem, TableOf(u), p[2])), p[3..]).Found?
         <==> Present(Read(mem, TableOf(Read(mem, TableOf(u), p[2])), p[3]));
      assert Present(u) ==> Walk(mem, TableOf(Read(mem, t, p[0])), p[1..]) == Walk(mem, TableOf(u), p[2..]);
    }

    /** KernelGetPhysicalAddress. */
    method GetPhysicalAddress(pml4: bv64, va: bv64) returns (r: bv64)
      requires Valid() && IsRoot(View(), FrameAt(pml4))
      ensures match Walk(memory, FrameAt(pml4), PathOf(va))
              case Missing(l) => 1 <= l <= 4 && r == ErrorCode(l)
              case Found(page) => FrameOf(r) == page
    {
      hide FrameOf, Direct, DirectSum, Physical, Present, TableAddress, TableOf, PageAddress, InDirectMap, PathOf,
           FrameAt, Inv, Depth;
      var path := PathOf(va);
      ghost var t := FrameAt(pml4);
      RootInMemory(View(), t);
      WalkUnrolled(memory, t, path);
      hide Walk;
      var hpd := memory[FrameAt(pml4)][path[0]];
      if !Present(hpd) {
        return ErrorCode(4);
      }
      EntryPointer(t, path[0], hpd);
      var lpd := memory[FrameAt(DirectSum(TableAddress(hpd), hhdm))][path[1]];
      if !Present(lpd) {
        return ErrorCode(3);
      }
      EntryPointer(TableOf(hpd), path[1], lpd);
      var pt := memory[FrameAt(DirectSum(TableAddress(lpd), hhdm))][path[2]];
      if !Present(pt) {
        return ErrorCode(2);
      }
      EntryPointer(TableOf(lpd), path[2], pt);
      var page := memory[FrameAt(DirectSum(TableAddress(pt), hhdm))][path[3]];
      if !Present(page) {
        return ErrorCode(1);
      }
      return PageAddress(page);
    }

    lemma RootInMemory(s: State, t: Frame)
      requires Inv(s) && IsRoot(s, t)
      ensures t in s.mem && IsTable(s, t) && Depth(s, t) == 0
    {
    }

    /** KernelUnmapPage. */
    method UnmapPage(root: bv64, va: bv64) returns (code: int)
      requires Valid()
      requires root != 0 ==> IsRoot(View(), FrameAt(root))
      modifies `memory
      ensures Valid()
      ensures root == 0 ==> code == -5 && View() == old(View())
      ensures root != 0 ==>
        && View() == UnmapPath(old(View()), FrameAt(root), PathOf(va))
        && code == UnmapCode(Walk(old(memory), FrameAt(root), PathOf(va)))
    {
      hide FrameOf, Direct, DirectSum, Physical, Present, TableAddress, TableOf, PageAddress, InDirectMap, PathOf,
           FrameAt, Inv, Depth;
      if root == 0 {
        return -5;
      }
      var path := PathOf(va);
      ghost var t := FrameAt(root);
      RootInMemory(View(), t);
      WalkUnrolled(memory, t, path);
      UnmapUnrolled(View(), t, path);
      UnmapValid(View(), t, path);
      hide Walk, UnmapPath;
      var hpdAddress := memory[FrameAt(root)][path[0]];
      if !Present(hpdAddress) {
        return -4;
      }
      EntryPointer(t, path[0], hpdAddress);
      UnmapPointer(hpdAddress, hhdm);
      var hpd := Direct(TableAddress(Direct(hpdAddress, hhdm)), hhdm);
      var lpdAddress := memory[FrameAt(hpd)][path[1]];
      if !Present(lpdAddress) {
        return -3;
      }
      EntryPointer(TableOf(hpdAddress), path[1], lpdAddress);
      var ptAddress := memory[FrameAt(Direct(TableAddress(lpdAddress), hhdm))][path[2]];
      if !Present(ptAddress) {
        return -2;
      }
      EntryPointer(TableOf(lpdAddress), path[2], ptAddress);
      var pt := Direct(TableAddress(ptAddress), hhdm);
      if !Present(memory[FrameAt(pt)][path[3]]) {
        return -1;
      }
      memory := memory[FrameAt(pt) := memory[FrameAt(pt)][path[3] := 0]];
      return 0;
    }

    lemma UnmapUnrolled(s: State, t: Frame, p: Path)
      requires |p| == 4
      ensures var hpd := Read(s.mem, t, p[0]); var lpd := Read(s.mem, TableOf(hpd), p[1]);
              var pt := Read(s.mem, TableOf(lpd), p[2]); var page := Read(s.mem, TableOf(pt), p[3]);
              UnmapPath(s, t, p) == if Present(hpd) && Present(lpd) && Present(pt) && Present(page)
                                    then s.(mem := Write(s.mem, TableOf(pt), p[3], 0)) else s
    {
      hide Present, TableOf, PageOf, Read;
      var u := Read(s.mem, TableOf(Read(s.mem, t, p[0])), p[1]);
      var v := Read(s.mem, TableOf(u), p[2]);
      assert p[1..][0] == p[1] && p[1..][1..] == p[2..] && p[2..][0] == p[2] && p[2..][1..] == p[3..];
      assert p[3..][0] == p[3];
      assert UnmapPath(s, TableOf(v), p[3..])
          == if Present(Read(s.mem, TableOf(v), p[3])) then s.(mem := Write(s.mem, TableOf(v), p[3], 0)) else s;
      assert Present(u) ==> UnmapPath(s, TableOf(Read(s.mem, t, p[0])), p[1..]) == UnmapPath(s, TableOf(u), p[2..]);
    }

    lemma UnmapValid(s: State, t: Frame, path: Path)
      requires Inv(s) && IsRoot(s, t) && |path| == 4
      ensures Inv(UnmapPath(s, t, path)) && UnmapPath(s, t, path).use == s.use
    {
      hide Inv;
      UnmapStart(s, t, path);
      UnmapKeepsInv(s, t, path);
    }

    /** KernelNewPageStructure. */
    method NewPageStructure(source: bv64) returns (newRoot: bv64)
      requires Valid() && stackPosition < pushed
      requires source != 0 ==> IsRoot(View(), FrameAt(source))
      modifies `memory, `stackPosition, `use
      ensures Valid()
      ensures View() == NewRoot(old(View()), if source == 0 then None else Some(FrameAt(source)), kernelFrame)
      ensures FrameAt(newRoot) == NextFrame(old(View())) && IsRoot(View(), FrameAt(newRoot))
    {
      hide FrameOf, Direct, DirectSum, Physical, InDirectMap, Inv;
      ghost var s, from := View(), if source == 0 then None else Some(FrameAt(source));
      ForkFacts(s, from, kernelFrame);
      var a := AllocateFrame(Root);
      PointerLeads(a);
      newRoot := DirectSum(a, hhdm);
      memory := memory[FrameAt(newRoot) := ZeroTable()[..256] + memory[FrameAt(newRoot)][256..]];
      if source != 0 {
        memory := memory[FrameAt(newRoot) := memory[FrameAt(source)][..256] + memory[FrameAt(newRoot)][256..]];
      }
      memory := memory[FrameAt(newRoot) := memory[FrameAt(newRoot)][..256] + memory[kernelFrame][256..]];
      assert memory[FrameAt(newRoot)] == ForkTable(s.mem, from, kernelFrame);
      assert View() == NewRoot(s, from, kernelFrame);
    }

    lemma ForkFacts(s: State, source: Option<Frame>, k: Frame)
      requires Inv(s) && Legal(s, Fork(source, k, NextFrame(s)))
      ensures var s', n := NewRoot(s, source, k), NextFrame(s);
              && Inv(s') && IsRoot(s', k) && IsRoot(s', n)
              && s'.mem.Keys == s.mem.Keys && n in s.mem && n != k && k in s.mem
      ensures source.Some? ==> source.value in s.mem && source.value != NextFrame(s)
    {
      hide FrameOf, Inv, ForkTable;
      NextIsUnused(s);
      RootInMemory(s, k);
      if source.Some? {
        RootInMemory(s, source.value);
      }
      ForkKeepsInv(s, source, k);
    }

    /** KernelAllocateFrame by a caller that keeps the frame for data. */
    method AllocateDataFrame() returns (a: bv64)
      requires Valid() && stackPosition < pushed
      modifies `stackPosition, `use
      ensures Valid() && View() == TakeFrame(old(View()))
      ensures a == NextAddress(old(View())) && Aligned(a) && FrameOf(a) !in old(use) && FrameOf(a) in memory
    {
      hide FrameOf, InDirectMap, Aligned, NodesOk, EdgesOk, Accounted;
      TakeKeepsInv(View());
      NextIsUnused(View());
      a := AllocateFrame(Data);
    }

    /** KernelExpandHeap. */
    method ExpandHeap() returns (pointer: bv64)
      requires Valid() && stackPosition < pushed
      modifies `stackPosition, `use
      ensures Valid() && View() == TakeFrame(old(View()))
      ensures FrameAt(pointer) == NextFrame(old(View()))
    {
      hide FrameOf, InDirectMap, Aligned, Inv, Direct, DirectSum, Physical;
      var a := AllocateDataFrame();
      PointerLeads(a);
      pointer := DirectSum(a, hhdm);
    }

    /** KernelDeallocateFrame pushes any page-aligned address; frame ownership is kept if it is that of a data
        frame in use. */
    method DeallocateFrame(address: bv64) returns (code: int)
      requires Valid()
      modifies `stackPosition, `use, memList
      ensures Sized()
      ensures PageOffset(address) != 0 || old(stackPosition) == 0 ==> code == -1 && View() == old(View())
      ensures PageOffset(address) == 0 && old(stackPosition) > 0 ==>
                code == 0 && View() == ReleaseFrame(old(View()), address)
      ensures code == -1 || Legal(old(View()), Release(address)) ==> Valid()
    {
      hide FrameOf, InDirectMap, Aligned, Inv, PageOffset, Legal;
      if PageOffset(address) != 0 {
        return -1;
      }
      if stackPosition == 0 {
        return -1;
      }
      ghost var s := View();
      PositionOk(s);
      if Legal(s, Release(address)) {
        ReleaseKeepsInv(s, address);
        ReleaseKeepsRoots(s, address, kernelFrame);
      }
      stackPosition := stackPosition - 1;
      memList[stackPosition] := address;
      use := use - {FrameOf(address)};
      assert View().list == ReleaseFrame(s, address).list;
      return 0;
    }

    lemma PositionOk(s: State)
      requires Inv(s)
      ensures s.pos <= |s.list|
    {
    }

    lemma ReleaseKeepsRoots(s: State, address: bv64, r: Frame)
      requires Legal(s, Release(address)) && IsRoot(s, r)
      ensures IsRoot(ReleaseFrame(s, address), r)
    {
      hide FrameOf;
    }
  }
}
