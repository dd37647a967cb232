/** Runs of address-space operations, and the flat map they implement.

    Every top-level slot of a root is owned by the root that first filled it; the pages of a slot
    are keyed by owner and path.  So the flat model has no tables: a slot is either empty, or refers
    to an owner, and two roots see the same pages in a slot exactly when the owner is the same. */
module AddressSpace {
  import opened Prelude
  import opened PageEntry
  import opened PageTable

  datatype Op =
    | Map(root: Frame, path: Path, pa: bv64, flags: bv64)
    | Unmap(root: Frame, path: Path)
    | Fork(source: Option<Frame>, kernel: Frame, made: Frame)  // KernelNewPageStructure
    | Take                                                      // a heap page or data frame
    | Store(frame: Frame, i: Index, w: bv64)                    // a write into a data frame
    | Release(address: bv64)                                    // KernelDeallocateFrame

  function TableAt(mem: map<Frame, Table>, t: Frame): Table {
    if t in mem then mem[t] else ZeroTable()
  }

  function ForkTable(mem: map<Frame, Table>, source: Option<Frame>, kernel: Frame): Table {
    (if source.Some? then TableAt(mem, source.value)[..256] else ZeroTable()[..256]) + TableAt(mem, kernel)[256..]
  }

  /** A new root: the lower half from the source, if there is one, the upper half from the kernel. */
  function NewRoot(s: State, source: Option<Frame>, kernel: Frame): State {
    var f := NextFrame(s);
    State(s.mem[f := ForkTable(s.mem, source, kernel)], s.list, s.pos + 1, s.use[f := Root])
  }

  function TakeFrame(s: State): State {
    s.(pos := s.pos + 1, use := s.use[NextFrame(s) := Data])
  }

  function ReleaseFrame(s: State, a: bv64): State
    requires 0 < s.pos <= |s.list|
  {
    s.(list := s.list[s.pos - 1 := a], pos := s.pos - 1, use := s.use - {FrameOf(a)})
  }

  ghost predicate Legal(s: State, op: Op) {
    match op
    case Map(r, path, _, flags) => IsRoot(s, r) && |path| == 4 && CanMap(s, r, path, flags)
    case Unmap(r, path) => IsRoot(s, r) && |path| == 4
    case Fork(source, k, n) =>
      && s.pos < |s.list| && n == NextFrame(s)
      && IsRoot(s, k) && (source.Some? ==> IsRoot(s, source.value))
    case Take => s.pos < |s.list|
    case Store(f, _, _) => f in s.use && s.use[f].Data?
    case Release(a) => 0 < s.pos <= |s.list| && Aligned(a) && FrameOf(a) in s.use && s.use[FrameOf(a)].Data?
  }

  ghost function Step(s: State, op: Op): State
    requires Legal(s, op)
  {
    match op
    case Map(r, path, pa, flags) => MapPath(s, r, path, pa, flags)
    case Unmap(r, path) => UnmapPath(s, r, path)
    case Fork(source, k, _) => NewRoot(s, source, k)
    case Take => TakeFrame(s)
    case Store(f, i, w) => s.(mem := Write(s.mem, f, i, w))
    case Release(a) => ReleaseFrame(s, a)
  }

  ghost predicate LegalRun(s: State, ops: seq<Op>)
    decreases |ops|
  {
    ops != [] ==> Legal(s, ops[0]) && LegalRun(Step(s, ops[0]), ops[1..])
  }

  ghost function Exec(s: State, ops: seq<Op>): State
    requires LegalRun(s, ops)
    decreases |ops|
  {
    if ops == [] then s else Exec(Step(s, ops[0]), ops[1..])
  }

  // ----- Steps that touch no page table -----

  /** A walk depends only on the tables it can reach. */
  lemma {:induction false} WalkFrame(s: State, mem': map<Frame, Table>, x: Frame, q: Path)
    requires Inv(s) && IsTable(s, x) && |q| > 0 && Depth(s, x) + |q| == 4
    requires forall y, i | IsTable(s, y) :: Read(mem', y, i) == Read(s.mem, y, i)
    ensures Walk(mem', x, q) == Walk(s.mem, x, q)
    decreases |q|
  {
    hide Present, TableOf, PageOf, FreeOk, NodesOk, EdgesOk, Accounted, Read;
    if |q| > 1 && Present(Read(s.mem, x, q[0])) {
      StepIsDeeper(s, x, q[0], TableOf(Read(s.mem, x, q[0])));
      WalkFrame(s, mem', TableOf(Read(s.mem, x, q[0])), q[1..]);
    }
  }

  lemma InvFrame(s: State, s': State)
    requires Inv(s) && FreeOk(s') && InMemory(s') && Accounted(s')
    requires forall y, i | IsTable(s, y) :: Read(s'.mem, y, i) == Read(s.mem, y, i)
    requires forall y :: IsTable(s', y) <==> IsTable(s, y)
    requires forall y | IsTable(s, y) :: y in s'.use && s'.use[y] == s.use[y]
    ensures Inv(s')
  {
    hide Present, TableOf, FreeOk, Accounted, InMemory, Read;
    forall x | IsNode(s', x) ensures NodeOk(s', s'.use[x].path, s'.use[x].parent, x) {
      assert IsTable(s', x) && IsNode(s, x);
    }
    forall x, j: Index, c | IsTable(s', x) && Depth(s', x) < 3 && Leads(s'.mem, x, j, c)
      ensures ChildOk(s', x, j, c)
    {
      assert Leads(s.mem, x, j, c);
      assert ChildOk(s, x, j, c) && IsTable(s, c);
    }
  }

  lemma TakeKeepsInv(s: State)
    requires Inv(s) && s.pos < |s.list|
    ensures Inv(TakeFrame(s))
  {
    hide Present, TableOf, FrameOf, Aligned, NodesOk, EdgesOk;
    var s' := TakeFrame(s);
    NextIsUnused(s);
    forall f | f in s'.mem && f !in s'.use ensures IsFree(s', f) {
      assert IsFree(s, f);
    }
    InvFrame(s, s');
  }

  lemma StoreKeepsInv(s: State, f: Frame, i: Index, w: bv64)
    requires Inv(s) && f in s.use && s.use[f].Data?
    ensures Inv(s.(mem := Write(s.mem, f, i, w)))
  {
    hide Present, TableOf, FrameOf, Aligned, NodesOk, EdgesOk;
    var s' := s.(mem := Write(s.mem, f, i, w));
    forall f | f in s'.mem && f !in s'.use ensures IsFree(s', f) {
      assert IsFree(s, f);
    }
    InvFrame(s, s');
  }

  lemma ReleaseKeepsFree(s: State, a: bv64)
    requires Inv(s) && Legal(s, Release(a))
    ensures FreeOk(ReleaseFrame(s, a))
  {
    hide Present, TableOf, FrameOf, Aligned, NodesOk, EdgesOk, Accounted;
    var s' := ReleaseFrame(s, a);
    assert forall i | s.pos <= i < |s.list| :: s'.list[i] == s.list[i];
    assert forall i | s.pos <= i < |s.list| :: FrameOf(s.list[i]) != FrameOf(a);
  }

  lemma ReleaseAccounts(s: State, a: bv64)
    requires Inv(s) && Legal(s, Release(a))
    ensures Accounted(ReleaseFrame(s, a))
  {
    hide Present, TableOf, FrameOf, Aligned, NodesOk, EdgesOk, FreeOk;
    var s' := ReleaseFrame(s, a);
    forall f | f in s'.mem && f !in s'.use ensures IsFree(s', f) {
      if f == FrameOf(a) {
        assert FrameOf(s'.list[s'.pos]) == f;
      } else {
        var i :| s.pos <= i < |s.list| && FrameOf(s.list[i]) == f;
        assert s'.list[i] == s.list[i];
      }
    }
  }

  lemma ReleaseKeepsInv(s: State, a: bv64)
    requires Inv(s) && Legal(s, Release(a))
    ensures Inv(ReleaseFrame(s, a))
  {
    hide Present, TableOf, FrameOf, Aligned, NodesOk, EdgesOk, FreeOk, Accounted;
    ReleaseKeepsFree(s, a);
    ReleaseAccounts(s, a);
    InvFrame(s, ReleaseFrame(s, a));
  }

  // ----- A new root -----

  lemma ForkReads(s: State, source: Option<Frame>, k: Frame, x: Frame, i: Index)
    requires Inv(s) && s.pos < |s.list| && NextFrame(s) in s.mem
    ensures Read(NewRoot(s, source, k).mem, x, i)
         == if x != NextFrame(s) then Read(s.mem, x, i)
            else if i >= 256 then Read(s.mem, k, i)
            else if source.Some? then Read(s.mem, source.value, i) else 0
  {
    hide FrameOf, FreeOk, NodesOk, EdgesOk, Accounted;
  }

  lemma ForkKeepsFree(s: State, source: Option<Frame>, k: Frame)
    requires Inv(s) && s.pos < |s.list|
    ensures FreeOk(NewRoot(s, source, k)) && Accounted(NewRoot(s, source, k)) && InMemory(NewRoot(s, source, k))
  {
    hide Present, TableOf, FrameOf, Aligned, NodesOk, EdgesOk, ForkTable;
    var s' := NewRoot(s, source, k);
    forall f | f in s'.mem && f !in s'.use ensures IsFree(s', f) {
      assert IsFree(s, f);
    }
  }

  lemma ForkKeepsNode(s: State, source: Option<Frame>, k: Frame, p: Path, up: Frame, x: Frame)
    requires Inv(s) && s.pos < |s.list| && NodeOk(s, p, up, x)
    ensures NodeOk(NewRoot(s, source, k), p, up, x)
  {
    hide Present, TableOf, FrameOf, Aligned, FreeOk, Accounted, ForkTable, Read, NodesOk, EdgesOk;
    NextIsUnused(s);
    ForkReads(s, source, k, up, p[|p| - 1]);
  }

  lemma ForkKeepsEdge(s: State, source: Option<Frame>, k: Frame, x: Frame, j: Index, c: Frame)
    requires Inv(s) && Legal(s, Fork(source, k, NextFrame(s)))
    requires var s' := NewRoot(s, source, k); IsTable(s', x) && Depth(s', x) < 3 && Leads(s'.mem, x, j, c)
    ensures ChildOk(NewRoot(s, source, k), x, j, c)
  {
    hide Present, TableOf, FrameOf, Aligned, FreeOk, Accounted, ForkTable, Read, NodesOk;
    NextIsUnused(s);
    ZeroIsAbsent();
    ForkReads(s, source, k, x, j);
    var from: Frame := if x != NextFrame(s) then x else if j >= 256 || source.None? then k else source.value;
    assert Leads(s.mem, from, j, c);
    assert ChildOk(s, from, j, c);
  }

  lemma ForkKeepsInv(s: State, source: Option<Frame>, k: Frame)
    requires Inv(s) && Legal(s, Fork(source, k, NextFrame(s)))
    ensures Inv(NewRoot(s, source, k))
  {
    hide FrameOf, FreeOk, Accounted, InMemory, Leads, NodeOk, ChildOk, ForkTable, Read;
    var s' := NewRoot(s, source, k);
    ForkKeepsFree(s, source, k);
    forall x | IsNode(s', x) ensures NodeOk(s', s'.use[x].path, s'.use[x].parent, x) {
      assert IsNode(s, x);
      ForkKeepsNode(s, source, k, s.use[x].path, s.use[x].parent, x);
    }
    forall x: Frame, j: Index, c: Frame | IsTable(s', x) && Depth(s', x) < 3 && Leads(s'.mem, x, j, c)
      ensures ChildOk(s', x, j, c)
    {
      ForkKeepsEdge(s, source, k, x, j, c);
    }
  }

  /** Every root translates through a new root exactly as its source half did, and the old roots
      translate as before. */
  lemma ForkEffect(s: State, source: Option<Frame>, k: Frame, x: Frame, q: Path)
    requires Inv(s) && Legal(s, Fork(source, k, NextFrame(s))) && |q| == 4
    requires IsRoot(NewRoot(s, source, k), x)
    ensures Walk(NewRoot(s, source, k).mem, x, q)
         == if x != NextFrame(s) then Walk(s.mem, x, q)
            else if q[0] >= 256 then Walk(s.mem, k, q)
            else if source.Some? then Walk(s.mem, source.value, q) else Missing(4)
  {
    hide Present, TableOf, FrameOf, Aligned, FreeOk, Accounted, NodesOk, EdgesOk, ForkTable, Read;
    var s' := NewRoot(s, source, k);
    NextIsUnused(s);
    ZeroIsAbsent();
    forall y, i | IsTable(s, y) ensures Read(s'.mem, y, i) == Read(s.mem, y, i) {
      ForkReads(s, source, k, y, i);
    }
    ForkReads(s, source, k, x, q[0]);
    if x != NextFrame(s) {
      WalkFrame(s, s'.mem, x, q);
    } else if q[0] < 256 && source.None? {
      WalkStops(s'.mem, x, q);
    } else {
      var from := if q[0] >= 256 then k else source.value;
      var c := TableOf(Read(s.mem, from, q[0]));
      if Present(Read(s.mem, from, q[0])) {
        StepIsDeeper(s, from, q[0], c);
        WalkFrame(s, s'.mem, c, q[1..]);
        WalkStep(s.mem, from, q, c);
        WalkStep(s'.mem, x, q, c);
      } else {
        WalkStops(s.mem, from, q);
        WalkStops(s'.mem, x, q);
      }
    }
  }

  /** The frame-ownership invariant holds after every step. */
  lemma StepKeepsInv(s: State, op: Op)
    requires Inv(s) && Legal(s, op)
    ensures Inv(Step(s, op))
  {
    hide Inv;
    match op
    case Map(r, path, pa, flags) => MapKeepsInv(s, r, path, pa, flags);
    case Unmap(r, path) => UnmapKeepsInv(s, r, path);
    case Fork(source, k, _) => ForkKeepsInv(s, source, k);
    case Take => TakeKeepsInv(s);
    case Store(f, i, w) => StoreKeepsInv(s, f, i, w);
    case Release(a) => ReleaseKeepsInv(s, a);
  }

  // ----- The flat model -----

  datatype Flat = Flat(owner: imap<(Frame, Index), Frame>, pages: imap<(Frame, Path), Frame>)

  ghost function FlatLookup(a: Flat, x: Frame, q: Path): Option<Frame>
    requires |q| == 4
  {
    if (x, q[0]) in a.owner && (a.owner[(x, q[0])], q) in a.pages
    then Some(a.pages[(a.owner[(x, q[0])], q)])
    else None
  }

  ghost function FlatMap(a: Flat, r: Frame, path: Path, page: Frame): Flat
    requires |path| == 4
  {
    var o := if (r, path[0]) in a.owner then a.owner[(r, path[0])] else r;
    Flat(a.owner[(r, path[0]) := o],
         if (o, path) in a.pages then a.pages else a.pages[(o, path) := page])
  }

  ghost function FlatUnmap(a: Flat, r: Frame, path: Path): Flat
    requires |path| == 4
  {
    if (r, path[0]) in a.owner then a.(pages := a.pages - {(a.owner[(r, path[0])], path)}) else a
  }

  ghost function FlatFork(a: Flat, source: Option<Frame>, k: Frame, n: Frame): Flat {
    a.(owner := imap e: (Frame, Index) |
         || (e.0 != n && e in a.owner)
         || (e.0 == n && e.1 >= 256 && (k, e.1) in a.owner)
         || (e.0 == n && e.1 < 256 && source.Some? && (source.value, e.1) in a.owner)
       :: if e.0 != n then a.owner[e]
          else if e.1 >= 256 then a.owner[(k, e.1)]
          else a.owner[(source.value, e.1)])
  }

  ghost function FlatStep(a: Flat, op: Op): Flat
    requires op.Map? || op.Unmap? ==> |op.path| == 4
  {
    match op
    case Map(r, path, pa, _) => FlatMap(a, r, path, PageOf(pa))
    case Unmap(r, path) => FlatUnmap(a, r, path)
    case Fork(source, k, n) => FlatFork(a, source, k, n)
    case _ => a
  }

  ghost predicate WellFormed(ops: seq<Op>) {
    forall op | op in ops && (op.Map? || op.Unmap?) :: |op.path| == 4
  }

  ghost function FlatExec(a: Flat, ops: seq<Op>): Flat
    requires WellFormed(ops)
    decreases |ops|
  {
    if ops == [] then a
    else
      assert ops[0] in ops;
      FlatExec(FlatStep(a, ops[0]), ops[1..])
  }

  // ----- The tables implement the flat model -----

  /** The root that made table c, for a table entered in a root. */
  ghost function Maker(s: State, c: Frame): Frame {
    if IsNode(s, c) then s.use[c].parent else 0
  }

  ghost predicate Filled(s: State, x: Frame, i: Index) {
    IsRoot(s, x) && Present(Read(s.mem, x, i))
  }

  ghost function OwnerOf(s: State, x: Frame, i: Index): Frame {
    Maker(s, TableOf(Read(s.mem, x, i)))
  }

  ghost predicate OwnPage(s: State, x: Frame, q: Path) {
    |q| == 4 && Filled(s, x, q[0]) && OwnerOf(s, x, q[0]) == x && Walk(s.mem, x, q).Found?
  }

  ghost function FlatOf(s: State): Flat {
    Flat(imap e: (Frame, Index) | Filled(s, e.0, e.1) :: OwnerOf(s, e.0, e.1),
         imap e: (Frame, Path) | OwnPage(s, e.0, e.1) :: Walk(s.mem, e.0, e.1).page)
  }

  /** The owner of a filled slot is a root that has the same table in that slot. */
  lemma OwnerShares(s: State, x: Frame, i: Index)
    requires Inv(s) && Filled(s, x, i)
    ensures var o := OwnerOf(s, x, i);
            Filled(s, o, i) && OwnerOf(s, o, i) == o && TableOf(Read(s.mem, o, i)) == TableOf(Read(s.mem, x, i))
  {
    hide Present, TableOf, FrameOf, Aligned, FreeOk, Accounted;
    var c := TableOf(Read(s.mem, x, i));
    StepIsDeeper(s, x, i, c);
    assert NodeOk(s, s.use[c].path, s.use[c].parent, c);
  }

  /** Two filled slots with the same owner hold the same table. */
  lemma OwnerDecides(s: State, x: Frame, y: Frame, i: Index)
    requires Inv(s) && Filled(s, x, i) && Filled(s, y, i)
    ensures SharesSlot(s.mem, x, y, i) <==> OwnerOf(s, x, i) == OwnerOf(s, y, i)
  {
    hide Present, TableOf, FrameOf, Inv;
    OwnerShares(s, x, i);
    OwnerShares(s, y, i);
  }

  /** Looking a path up in the flat model is walking it through the tables. */
  lemma LookupRefines(s: State, x: Frame, q: Path)
    requires Inv(s) && IsRoot(s, x) && |q| == 4
    ensures FlatLookup(FlatOf(s), x, q)
         == match Walk(s.mem, x, q) case Found(p) => Some(p) case Missing(_) => None
  {
    hide Present, TableOf, PageOf, FrameOf, Inv;
    if Filled(s, x, q[0]) {
      OwnerShares(s, x, q[0]);
      var o := OwnerOf(s, x, q[0]);
      WalkStep(s.mem, x, q, TableOf(Read(s.mem, x, q[0])));
      WalkStep(s.mem, o, q, TableOf(Read(s.mem, x, q[0])));
      assert (x, q[0]) in FlatOf(s).owner;
    } else {
      WalkStops(s.mem, x, q);
    }
  }

  /** Mapping fills at most the slot it goes through, and an empty slot becomes the root's own. */
  lemma MapOwner(s: State, r: Frame, path: Path, pa: bv64, flags: bv64, x: Frame, i: Index)
    requires Inv(s) && Legal(s, Map(r, path, pa, flags)) && IsRoot(s, x)
    ensures var s' := MapPath(s, r, path, pa, flags);
            && (Filled(s', x, i) <==> Filled(s, x, i) || (x == r && i == path[0]))
            && (Filled(s, x, i) ==>
                  OwnerOf(s', x, i) == OwnerOf(s, x, i) && Read(s'.mem, x, i) == Read(s.mem, x, i))
            && (!Filled(s, r, path[0]) ==> OwnerOf(s', r, path[0]) == r)
  {
    hide Present, TableOf, PageOf, Entry, EntryFlags, FrameOf, FreeOk, NodesOk, EdgesOk, Accounted, Link, Walk;
    var s' := MapPath(s, r, path, pa, flags);
    MapKeepsInv(s, r, path, pa, flags);
    if Filled(s, x, i) {
      StepIsDeeper(s, x, i, TableOf(Read(s.mem, x, i)));
    }
    if Present(Read(s.mem, r, path[0])) {
      var c := TableOf(Read(s.mem, r, path[0]));
      StepIsDeeper(s, r, path[0], c);
      StepCanMap(s, r, path, flags);
      MapKeepsInv(s, c, path[1..], pa, flags);
      GrowsRead(s, s', c, x, i);
    } else {
      MapNewOwner(s, r, path, pa, flags, x, i);
    }
  }

  lemma MapNewOwner(s: State, r: Frame, path: Path, pa: bv64, flags: bv64, x: Frame, i: Index)
    requires Inv(s) && Legal(s, Map(r, path, pa, flags)) && IsRoot(s, x)
    requires !Present(Read(s.mem, r, path[0]))
    ensures var s' := MapPath(s, r, path, pa, flags);
            && (x != r || i != path[0] ==> Read(s'.mem, x, i) == Read(s.mem, x, i))
            && Leads(s'.mem, r, path[0], NextFrame(s))
            && IsNode(s', NextFrame(s)) && s'.use[NextFrame(s)].parent == r
  {
    hide Present, TableOf, PageOf, Entry, EntryFlags, FrameOf, FreeOk, NodesOk, EdgesOk, Accounted, Walk;
    var s' := MapPath(s, r, path, pa, flags);
    var s1, f := Link(s, r, path[0], flags), NextFrame(s);
    LinkEnters(s, r, path, flags);
    NextIsUnused(s);
    LinkCanMap(s, r, path, flags);
    MapKeepsInv(s1, f, path[1..], pa, flags);
    GrowsRead(s1, s', f, x, i);
    GrowsRead(s1, s', f, r, path[0]);
  }

  /** The owner under which a mapping through r is recorded. */
  ghost function MapsUnder(s: State, r: Frame, i: Index): Frame {
    if Filled(s, r, i) then OwnerOf(s, r, i) else r
  }

  lemma MapOwnPage(s: State, r: Frame, path: Path, pa: bv64, flags: bv64, x: Frame, q: Path)
    requires Inv(s) && Legal(s, Map(r, path, pa, flags)) && IsRoot(s, x) && |q| == 4
    ensures var s', o := MapPath(s, r, path, pa, flags), MapsUnder(s, r, path[0]);
            && (OwnPage(s', x, q) <==> OwnPage(s, x, q) || (x == o && q == path))
            && (OwnPage(s, x, q) ==> Walk(s'.mem, x, q) == Walk(s.mem, x, q))
            && (x == o && q == path && !OwnPage(s, x, q) ==> Walk(s'.mem, x, q) == Found(PageOf(pa)))
  {
    hide Present, TableOf, PageOf, Entry, EntryFlags, FrameOf, Inv, Link, Walk, MapPath;
    MapEffect(s, r, path, pa, flags, x, q);
    MapOwner(s, r, path, pa, flags, x, q[0]);
    MapOwner(s, r, path, pa, flags, x, path[0]);
    MapRoots(s, r, path, pa, flags, x);
    if Filled(s, r, path[0]) {
      OwnerShares(s, r, path[0]);
      if Filled(s, x, path[0]) {
        OwnerDecides(s, x, r, path[0]);
      }
    }
    if !Filled(s, x, q[0]) {
      WalkStops(s.mem, x, q);
    }
  }

  lemma MapRoots(s: State, r: Frame, path: Path, pa: bv64, flags: bv64, x: Frame)
    requires Inv(s) && Legal(s, Map(r, path, pa, flags))
    ensures IsRoot(MapPath(s, r, path, pa, flags), x) <==> IsRoot(s, x)
  {
    hide Present, TableOf, PageOf, Entry, EntryFlags, FrameOf, FreeOk, NodesOk, EdgesOk, Accounted, MapPath, Walk;
    MapKeepsInv(s, r, path, pa, flags);
  }

  lemma MapRefinesOwners(s: State, r: Frame, path: Path, pa: bv64, flags: bv64)
    requires Inv(s) && Legal(s, Map(r, path, pa, flags))
    ensures FlatOf(MapPath(s, r, path, pa, flags)).owner == FlatMap(FlatOf(s), r, path, PageOf(pa)).owner
  {
    hide Present, TableOf, PageOf, Entry, EntryFlags, FrameOf, Inv, Walk, MapPath, OwnerOf, OwnPage;
    var a, a' := FlatOf(MapPath(s, r, path, pa, flags)).owner, FlatMap(FlatOf(s), r, path, PageOf(pa)).owner;
    forall e: (Frame, Index)
      ensures e in a <==> e in a'
      ensures e in a' ==> a[e] == a'[e]
    {
      MapRoots(s, r, path, pa, flags, e.0);
      if IsRoot(s, e.0) {
        MapOwner(s, r, path, pa, flags, e.0, e.1);
      }
    }
    assert a == a';
  }

  /** The own pages of the flat model, one at a time. */
  lemma PageMeaning(s: State, e: (Frame, Path))
    ensures e in FlatOf(s).pages <==> OwnPage(s, e.0, e.1)
    ensures OwnPage(s, e.0, e.1) ==> FlatOf(s).pages[e] == Walk(s.mem, e.0, e.1).page
  {
    hide OwnerOf, Filled, Walk;
  }

  lemma FlatMapMeaning(s: State, r: Frame, path: Path, page: Frame, e: (Frame, Path))
    requires Inv(s) && |path| == 4
    ensures var a, a', o := FlatOf(s).pages, FlatMap(FlatOf(s), r, path, page).pages, MapsUnder(s, r, path[0]);
            && (e in a' <==> e in a || e == (o, path))
            && (e in a ==> a'[e] == a[e])
            && (e !in a && e == (o, path) ==> a'[e] == page)
  {
    hide OwnerOf, OwnPage, Walk, Inv, Filled;
    assert (r, path[0]) in FlatOf(s).owner <==> Filled(s, r, path[0]);
  }

  lemma MapRefinesPage(s: State, r: Frame, path: Path, pa: bv64, flags: bv64, e: (Frame, Path))
    requires Inv(s) && Legal(s, Map(r, path, pa, flags))
    ensures var a, a' := FlatOf(MapPath(s, r, path, pa, flags)).pages, FlatMap(FlatOf(s), r, path, PageOf(pa)).pages;
            (e in a <==> e in a') && (e in a' ==> a[e] == a'[e])
  {
    hide PageOf, EntryFlags, Inv, Walk, MapPath, OwnerOf, FlatOf, FlatMap, Filled;
    PageMeaning(s, e);
    PageMeaning(MapPath(s, r, path, pa, flags), e);
    FlatMapMeaning(s, r, path, PageOf(pa), e);
    MapRoots(s, r, path, pa, flags, e.0);
    UnderIsRoot(s, r, path[0]);
    if IsRoot(s, e.0) && |e.1| == 4 {
      MapOwnPage(s, r, path, pa, flags, e.0, e.1);
    }
    OwnPageOfRoot(s, e.0, e.1);
    OwnPageOfRoot(MapPath(s, r, path, pa, flags), e.0, e.1);
  }

  lemma UnderIsRoot(s: State, r: Frame, i: Index)
    requires Inv(s) && IsRoot(s, r)
    ensures IsRoot(s, MapsUnder(s, r, i))
  {
    hide Inv, OwnerOf, Read;
    if Filled(s, r, i) {
      OwnerShares(s, r, i);
    }
  }

  lemma OwnPageOfRoot(s: State, x: Frame, q: Path)
    ensures OwnPage(s, x, q) ==> IsRoot(s, x) && |q| == 4
  {
  }

  lemma MapRefinesPages(s: State, r: Frame, path: Path, pa: bv64, flags: bv64)
    requires Inv(s) && Legal(s, Map(r, path, pa, flags))
    ensures FlatOf(MapPath(s, r, path, pa, flags)).pages == FlatMap(FlatOf(s), r, path, PageOf(pa)).pages
  {
    hide PageOf, Inv, MapPath, FlatOf, FlatMap, CanMap;
    var a, a' := FlatOf(MapPath(s, r, path, pa, flags)).pages, FlatMap(FlatOf(s), r, path, PageOf(pa)).pages;
    forall e: (Frame, Path)
      ensures e in a <==> e in a'
      ensures e in a' ==> a[e] == a'[e]
    {
      MapRefinesPage(s, r, path, pa, flags, e);
    }
    assert a == a';
  }

  lemma UnmapOwners(s: State, r: Frame, path: Path, x: Frame, i: Index)
    requires Inv(s) && Legal(s, Unmap(r, path))
    ensures var s' := UnmapPath(s, r, path);
            && (IsRoot(s', x) <==> IsRoot(s, x))
            && (IsRoot(s, x) ==> Read(s'.mem, x, i) == Read(s.mem, x, i))
            && (Filled(s', x, i) <==> Filled(s, x, i))
            && (Filled(s, x, i) ==> OwnerOf(s', x, i) == OwnerOf(s, x, i))
  {
    hide Present, TableOf, FrameOf, FreeOk, NodesOk, EdgesOk, Accounted;
    var s' := UnmapPath(s, r, path);
    UnmapKeepsInv(s, r, path);
    if Present(Read(s.mem, r, path[0])) {
      var c := TableOf(Read(s.mem, r, path[0]));
      StepIsDeeper(s, r, path[0], c);
      UnmapKeepsInv(s, c, path[1..]);
      if IsRoot(s, x) {
        GrowsRead(s, s', c, x, i);
      }
    }
  }

  lemma UnmapOwnPage(s: State, r: Frame, path: Path, x: Frame, q: Path)
    requires Inv(s) && Legal(s, Unmap(r, path)) && IsRoot(s, x) && |q| == 4
    ensures var s' := UnmapPath(s, r, path);
            && (OwnPage(s', x, q) <==>
                  OwnPage(s, x, q) && !(Filled(s, r, path[0]) && x == OwnerOf(s, r, path[0]) && q == path))
            && (OwnPage(s', x, q) ==> Walk(s'.mem, x, q) == Walk(s.mem, x, q))
  {
    hide Present, TableOf, PageOf, FrameOf, Inv, Walk, UnmapPath;
    UnmapStart(s, r, path);
    UnmapEffect(s, r, path, x, q);
    UnmapOwners(s, r, path, x, q[0]);
    if Filled(s, r, path[0]) {
      OwnerShares(s, r, path[0]);
      if Filled(s, x, path[0]) {
        OwnerDecides(s, x, r, path[0]);
      }
    }
  }

  lemma UnmapStart(s: State, r: Frame, path: Path)
    requires Inv(s) && Legal(s, Unmap(r, path))
    ensures CanUnmap(s, r, path)
  {
    hide Inv;
  }

  lemma UnmapRefines(s: State, r: Frame, path: Path)
    requires Inv(s) && Legal(s, Unmap(r, path))
    ensures FlatOf(UnmapPath(s, r, path)) == FlatUnmap(FlatOf(s), r, path)
  {
    hide Present, TableOf, PageOf, FrameOf, Inv, Walk, UnmapPath, OwnerOf;
    var a, a' := FlatOf(UnmapPath(s, r, path)), FlatUnmap(FlatOf(s), r, path);
    forall e: (Frame, Index)
      ensures e in a.owner <==> e in a'.owner
      ensures e in a'.owner ==> a.owner[e] == a'.owner[e]
    {
      UnmapOwners(s, r, path, e.0, e.1);
    }
    assert a.owner == a'.owner;
    forall e: (Frame, Path)
      ensures e in a.pages <==> e in a'.pages
      ensures e in a'.pages ==> a.pages[e] == a'.pages[e]
    {
      UnmapOwners(s, r, path, e.0, 0);
      if IsRoot(s, e.0) && |e.1| == 4 {
        UnmapOwnPage(s, r, path, e.0, e.1);
      }
    }
    assert a.pages == a'.pages;
  }

  lemma ForkOwners(s: State, source: Option<Frame>, k: Frame, x: Frame, i: Index)
    requires Inv(s) && Legal(s, Fork(source, k, NextFrame(s)))
    ensures var s', n := NewRoot(s, source, k), NextFrame(s);
            && (IsRoot(s', x) <==> IsRoot(s, x) || x == n)
            && !IsRoot(s, n)
            && (forall from: Frame | IsRoot(s, from) && Read(s'.mem, x, i) == Read(s.mem, from, i) && IsRoot(s', x) ::
                  && (Filled(s', x, i) <==> Filled(s, from, i))
                  && (Filled(s, from, i) ==> OwnerOf(s', x, i) == OwnerOf(s, from, i)))
  {
    hide Present, TableOf, FrameOf, FreeOk, NodesOk, EdgesOk, Accounted, ForkTable, Read;
    NextIsUnused(s);
    forall from: Frame | IsRoot(s, from) && Present(Read(s.mem, from, i))
      ensures IsNode(s, TableOf(Read(s.mem, from, i)))
    {
      StepIsDeeper(s, from, i, TableOf(Read(s.mem, from, i)));
    }
  }

  /** A new root owns no slot, so it adds no page of its own. */
  lemma ForkOwnPage(s: State, source: Option<Frame>, k: Frame, x: Frame, q: Path)
    requires Inv(s) && Legal(s, Fork(source, k, NextFrame(s))) && |q| == 4
    ensures var s' := NewRoot(s, source, k);
            && (OwnPage(s', x, q) <==> OwnPage(s, x, q))
            && (OwnPage(s, x, q) ==> Walk(s'.mem, x, q) == Walk(s.mem, x, q))
  {
    hide Present, TableOf, PageOf, FrameOf, Inv, Walk, NewRoot, OwnerOf, Read;
    var s', n := NewRoot(s, source, k), NextFrame(s);
    NextIsUnused(s);
    ZeroIsAbsent();
    ForkOwners(s, source, k, x, q[0]);
    ForkReads(s, source, k, x, q[0]);
    if IsRoot(s', x) {
      ForkEffect(s, source, k, x, q);
      var from: Frame := if x != n then x else if q[0] >= 256 || source.None? then k else source.value;
      if x == n && Filled(s, from, q[0]) {
        OwnerShares(s, from, q[0]);
      }
    }
  }

  lemma ForkRefines(s: State, source: Option<Frame>, k: Frame)
    requires Inv(s) && Legal(s, Fork(source, k, NextFrame(s)))
    ensures FlatOf(NewRoot(s, source, k)) == FlatFork(FlatOf(s), source, k, NextFrame(s))
  {
    hide Present, TableOf, PageOf, FrameOf, Inv, Walk, NewRoot, OwnerOf, Read;
    var s', n := NewRoot(s, source, k), NextFrame(s);
    var a, a' := FlatOf(s'), FlatFork(FlatOf(s), source, k, n);
    NextIsUnused(s);
    ZeroIsAbsent();
    forall e: (Frame, Index)
      ensures e in a.owner <==> e in a'.owner
      ensures e in a'.owner ==> a.owner[e] == a'.owner[e]
    {
      ForkOwners(s, source, k, e.0, e.1);
      ForkReads(s, source, k, e.0, e.1);
    }
    assert a.owner == a'.owner;
    forall e: (Frame, Path)
      ensures e in a.pages <==> e in a'.pages
      ensures e in a'.pages ==> a.pages[e] == a'.pages[e]
    {
      if |e.1| == 4 {
        ForkOwnPage(s, source, k, e.0, e.1);
      }
    }
    assert a.pages == a'.pages;
  }

  /** Every table and every root is left alone. */
  ghost predicate Quiet(s: State, s': State) {
    && (forall y, i | IsTable(s, y) :: Read(s'.mem, y, i) == Read(s.mem, y, i))
    && (forall y :: IsTable(s', y) <==> IsTable(s, y))
    && (forall y | IsTable(s, y) :: y in s'.use && s'.use[y] == s.use[y])
  }

  lemma QuietUse(s: State, s': State, y: Frame)
    requires Quiet(s, s')
    ensures (IsRoot(s', y) <==> IsRoot(s, y)) && (IsNode(s', y) <==> IsNode(s, y))
    ensures IsNode(s, y) ==> s'.use[y] == s.use[y]
  {
    hide Read;
    assert IsRoot(s, y) || IsNode(s, y) ==> IsTable(s, y);
    assert IsRoot(s', y) || IsNode(s', y) ==> IsTable(s', y);
  }

  lemma QuietOwner(s: State, s': State, x: Frame, i: Index)
    requires Quiet(s, s')
    ensures Filled(s', x, i) <==> Filled(s, x, i)
    ensures Filled(s, x, i) ==> OwnerOf(s', x, i) == OwnerOf(s, x, i)
  {
    hide Present, TableOf, Read;
    QuietUse(s, s', x);
    QuietUse(s, s', TableOf(Read(s.mem, x, i)));
    assert IsRoot(s, x) ==> IsTable(s, x);
  }

  lemma QuietPage(s: State, s': State, x: Frame, q: Path)
    requires Inv(s) && Quiet(s, s')
    ensures OwnPage(s', x, q) <==> OwnPage(s, x, q)
    ensures OwnPage(s, x, q) ==> Walk(s'.mem, x, q) == Walk(s.mem, x, q)
  {
    hide OwnerOf, Filled, Walk, Inv, Read, IsRoot;
    QuietUse(s, s', x);
    if |q| == 4 {
      QuietOwner(s, s', x, q[0]);
      if IsRoot(s, x) {
        RootIsTable(s, x);
        WalkFrame(s, s'.mem, x, q);
      }
    }
    OwnPageOfRoot(s, x, q);
    OwnPageOfRoot(s', x, q);
  }

  lemma RootIsTable(s: State, x: Frame)
    requires IsRoot(s, x)
    ensures IsTable(s, x) && Depth(s, x) == 0
  {
  }

  /** A step that leaves every table and every root alone leaves the flat model alone. */
  lemma QuietRefines(s: State, s': State)
    requires Inv(s) && Quiet(s, s')
    ensures FlatOf(s') == FlatOf(s)
  {
    hide Inv, Quiet, Walk, OwnPage, Filled, OwnerOf;
    var a, a' := FlatOf(s'), FlatOf(s);
    forall e: (Frame, Index)
      ensures e in a.owner <==> e in a'.owner
      ensures e in a'.owner ==> a.owner[e] == a'.owner[e]
    {
      QuietOwner(s, s', e.0, e.1);
    }
    assert a.owner == a'.owner;
    forall e: (Frame, Path)
      ensures e in a.pages <==> e in a'.pages
      ensures e in a'.pages ==> a.pages[e] == a'.pages[e]
    {
      QuietPage(s, s', e.0, e.1);
    }
    assert a.pages == a'.pages;
  }

  /** One step of the tables is one step of the flat model. */
  lemma StepRefines(s: State, op: Op)
    requires Inv(s) && Legal(s, op)
    ensures op.Map? || op.Unmap? ==> |op.path| == 4
    ensures FlatOf(Step(s, op)) == FlatStep(FlatOf(s), op)
  {
    hide Inv, FlatOf, FlatMap, FlatUnmap, FlatFork;
    match op
    case Map(r, path, pa, flags) =>
      MapRefinesOwners(s, r, path, pa, flags);
      MapRefinesPages(s, r, path, pa, flags);
    case Unmap(r, path) => UnmapRefines(s, r, path);
    case Fork(source, k, _) => ForkRefines(s, source, k);
    case Take => NextIsUnused(s); QuietRefines(s, Step(s, op));
    case Store(_, _, _) => QuietRefines(s, Step(s, op));
    case Release(_) => QuietRefines(s, Step(s, op));
  }

  /** Over every run the tables implement the flat model, and frame ownership is kept. */
  lemma {:induction false} RunRefines(s: State, ops: seq<Op>)
    requires Inv(s) && LegalRun(s, ops)
    ensures Inv(Exec(s, ops)) && WellFormed(ops)
    ensures FlatOf(Exec(s, ops)) == FlatExec(FlatOf(s), ops)
    decreases |ops|
  {
    hide Inv, FlatOf, FlatStep, Legal, Step;
    if ops != [] {
      StepKeepsInv(s, ops[0]);
      StepRefines(s, ops[0]);
      RunRefines(Step(s, ops[0]), ops[1..]);
      assert forall op | op in ops :: op == ops[0] || op in ops[1..];
    }
  }
}
