/** Page tables as data: physical memory, the frame stack, and the walks over them as functions.
    A path is the list of table indices still to be followed, top level first, so one recursive
    definition serves all four levels and "the length of the path" is the level. */
module PageTable {
  import opened PageEntry

  type Table = t: seq<bv64> | |t| == 512 witness seq(512, _ => 0)
  type Path = seq<Index>

  function ZeroTable(): Table { seq(512, _ => 0) }

  /** What a frame is used for.  A node records the indices that lead to it and the table whose
      entry was written when it was made. */
  datatype Use = Root | Node(path: Path, parent: Frame) | Data

  datatype State = State(mem: map<Frame, Table>, list: seq<bv64>, pos: nat, use: map<Frame, Use>)

  /** The result of a walk: the page, or the level at which the entry was absent (4 is the top). */
  datatype Lookup = Missing(level: nat) | Found(page: Frame)

  function Read(mem: map<Frame, Table>, t: Frame, i: Index): bv64 {
    if t in mem then mem[t][i] else 0
  }

  function Write(mem: map<Frame, Table>, t: Frame, i: Index, w: bv64): map<Frame, Table> {
    if t in mem then mem[t := mem[t][i := w]] else mem
  }

  /** The address KernelAllocateFrame returns next; past the pushed frames `mem_list` holds zeros. */
  function NextAddress(s: State): bv64 {
    if s.pos < |s.list| then s.list[s.pos] else 0
  }

  function NextFrame(s: State): Frame { FrameOf(NextAddress(s)) }

  function Walk(mem: map<Frame, Table>, t: Frame, path: Path): Lookup
    requires |path| > 0
    decreases |path|
  {
    var w := Read(mem, t, path[0]);
    if !Present(w) then Missing(|path|)
    else if |path| == 1 then Found(PageOf(w))
    else Walk(mem, TableOf(w), path[1..])
  }

  function HomePath(u: Use): Path {
    if u.Node? then u.path else []
  }

  /** Takes the next frame, clears it, and enters it at index i of table t. */
  function Link(s: State, t: Frame, i: Index, flags: bv64): State {
    var f := NextFrame(s);
    var home := if t in s.use then HomePath(s.use[t]) else [];
    State(Write(s.mem[f := ZeroTable()], t, i, Entry(NextAddress(s), flags)), s.list, s.pos + 1,
          s.use[f := Node(home + [i], t)])
  }

  /** Maps the page at the end of the path, making the missing tables on the way; a page that is
      already present is left alone. */
  function MapPath(s: State, t: Frame, path: Path, pa: bv64, flags: bv64): State
    requires |path| > 0
    decreases |path|
  {
    var w := Read(s.mem, t, path[0]);
    if |path| == 1 then
      if Present(w) then s else s.(mem := Write(s.mem, t, path[0], Entry(pa, flags)))
    else if Present(w) then
      MapPath(s, TableOf(w), path[1..], pa, flags)
    else
      MapPath(Link(s, t, path[0], flags), NextFrame(s), path[1..], pa, flags)
  }

  ghost predicate IsTable(s: State, t: Frame) { t in s.use && !s.use[t].Data? }

  ghost predicate IsNode(s: State, t: Frame) { t in s.use && s.use[t].Node? }

  function Depth(s: State, t: Frame): nat
    requires t in s.use
  {
    |HomePath(s.use[t])|
  }

  /** Frames not yet handed out are distinct, aligned, in memory, and used for nothing. */
  ghost predicate FreeOk(s: State) {
    && s.pos <= |s.list|
    && (forall i | s.pos <= i < |s.list| :: Aligned(s.list[i]))
    && (forall i | s.pos <= i < |s.list| :: FrameOf(s.list[i]) in s.mem && FrameOf(s.list[i]) !in s.use)
    && (forall i, j | s.pos <= i < j < |s.list| :: FrameOf(s.list[i]) != FrameOf(s.list[j]))
  }

  /** Entry i of table t is present and leads to table c. */
  predicate Leads(mem: map<Frame, Table>, t: Frame, i: Index, c: Frame) {
    Present(Read(mem, t, i)) && TableOf(Read(mem, t, i)) == c
  }

  /** Table c is what the ownership record says entry i of table t must lead to. */
  ghost predicate ChildOk(s: State, t: Frame, i: Index, c: Frame)
    requires t in s.use
  {
    && c in s.use && s.use[c].Node?
    && s.use[c].path == HomePath(s.use[t]) + [i]
    && (s.use[t].Node? ==> s.use[c].parent == t)
  }

  ghost predicate NodeOk(s: State, p: Path, up: Frame, c: Frame) {
    && 1 <= |p| <= 3
    && IsTable(s, up)
    && HomePath(s.use[up]) == p[..|p| - 1]
    && Leads(s.mem, up, p[|p| - 1], c)
  }

  ghost predicate IsFree(s: State, f: Frame) { exists i | s.pos <= i < |s.list| :: FrameOf(s.list[i]) == f }

  /** Every frame of memory is free or used for something. */
  ghost predicate Accounted(s: State) { forall f | f in s.mem :: f in s.use || IsFree(s, f) }

  ghost predicate InMemory(s: State) { forall t | t in s.use :: t in s.mem }

  /** Every page-table frame below a root is entered in its parent, at the last index of its path. */
  ghost predicate NodesOk(s: State) {
    forall t | IsNode(s, t) :: NodeOk(s, s.use[t].path, s.use[t].parent, t)
  }

  /** Every present entry above the last level leads to a table one level down, at the path extended
      by the index; below a root, the table has no other parent. */
  ghost predicate EdgesOk(s: State) {
    forall t, i: Index, c | IsTable(s, t) && Depth(s, t) < 3 && Leads(s.mem, t, i, c) :: ChildOk(s, t, i, c)
  }

  /** The frame-ownership invariant. */
  ghost predicate Inv(s: State) {
    && FreeOk(s)
    && InMemory(s) && NodesOk(s) && EdgesOk(s) && Accounted(s)
  }

  /** What Link changes: the new frame reads as zeros, and one entry of t leads to it. */
  lemma LinkLeads(s: State, t: Frame, i: Index, flags: bv64, x: Frame, j: Index, c: Frame)
    requires Inv(s) && IsTable(s, t) && s.pos < |s.list| && EntryFlags(flags)
    ensures Leads(Link(s, t, i, flags).mem, x, j, c) <==>
      if x == NextFrame(s) then false
      else if x == t && j == i then c == NextFrame(s)
      else Leads(s.mem, x, j, c)
  {
    hide Present, TableOf, PageOf, Entry, Aligned, EntryFlags, FrameOf;
    EntryRoundTrip(NextAddress(s), flags);
    ZeroIsAbsent();
  }

  lemma LinkKeepsFree(s: State, t: Frame, i: Index, flags: bv64)
    requires FreeOk(s) && t in s.mem && s.pos < |s.list|
    requires Accounted(s)
    ensures FreeOk(Link(s, t, i, flags)) && Accounted(Link(s, t, i, flags))
  {
    hide Aligned, FrameOf, Entry;
    var s' := Link(s, t, i, flags);
    forall f | f in s'.mem && f !in s'.use ensures IsFree(s', f) {
      assert IsFree(s, f);
    }
  }

  lemma LinkKeepsNode(s: State, t: Frame, i: Index, flags: bv64, p: Path, up: Frame, x: Frame)
    requires Inv(s) && IsTable(s, t) && s.pos < |s.list|
    requires !Present(Read(s.mem, t, i)) && EntryFlags(flags)
    requires NodeOk(s, p, up, x)
    ensures NodeOk(Link(s, t, i, flags), p, up, x)
  {
    hide Present, TableOf, Entry, EntryFlags, FrameOf, Read, Write, NodesOk, EdgesOk;
    LinkLeads(s, t, i, flags, up, p[|p| - 1], x);
    assert IsTable(s, up) && up != NextFrame(s);
    assert Leads(s.mem, up, p[|p| - 1], x);
  }

  lemma LinkMakesNode(s: State, t: Frame, i: Index, flags: bv64)
    requires Inv(s) && IsTable(s, t) && Depth(s, t) < 3 && s.pos < |s.list| && EntryFlags(flags)
    ensures NodeOk(Link(s, t, i, flags), HomePath(s.use[t]) + [i], t, NextFrame(s))
  {
    hide Present, TableOf, Entry, EntryFlags, FrameOf, Read, Write, NodesOk, EdgesOk;
    LinkLeads(s, t, i, flags, t, i, NextFrame(s));
  }

  lemma LinkKeepsEdge(s: State, t: Frame, i: Index, flags: bv64, x: Frame, j: Index, c: Frame)
    requires Inv(s) && IsTable(s, t) && Depth(s, t) < 3 && s.pos < |s.list|
    requires !Present(Read(s.mem, t, i)) && EntryFlags(flags)
    requires IsTable(Link(s, t, i, flags), x) && Depth(Link(s, t, i, flags), x) < 3
    requires Leads(Link(s, t, i, flags).mem, x, j, c)
    ensures ChildOk(Link(s, t, i, flags), x, j, c)
  {
    hide Present, TableOf, Entry, EntryFlags, FrameOf, Read, Write, NodesOk;
    LinkLeads(s, t, i, flags, x, j, c);
  }

  lemma LinkKeepsInv(s: State, t: Frame, i: Index, flags: bv64)
    requires Inv(s) && IsTable(s, t) && Depth(s, t) < 3 && s.pos < |s.list|
    requires !Present(Read(s.mem, t, i)) && EntryFlags(flags)
    ensures Inv(Link(s, t, i, flags))
  {
    hide Present, TableOf, Entry, EntryFlags, FrameOf, Read, Leads, NodeOk, ChildOk, Aligned;
    LinkKeepsFree(s, t, i, flags);
    var s' := Link(s, t, i, flags);
    forall x | IsNode(s', x) ensures NodeOk(s', s'.use[x].path, s'.use[x].parent, x) {
      if x == NextFrame(s) {
        LinkMakesNode(s, t, i, flags);
      } else {
        assert IsNode(s, x);
        LinkKeepsNode(s, t, i, flags, s.use[x].path, s.use[x].parent, x);
      }
    }
    forall x, j: Index, c | IsTable(s', x) && Depth(s', x) < 3 && Leads(s'.mem, x, j, c)
      ensures ChildOk(s', x, j, c)
    {
      LinkKeepsEdge(s, t, i, flags, x, j, c);
    }
  }

  lemma WriteLeafKeepsInv(s: State, t: Frame, i: Index, w: bv64)
    requires Inv(s) && IsTable(s, t) && Depth(s, t) == 3
    ensures Inv(s.(mem := Write(s.mem, t, i, w)))
  {
    hide Present, TableOf, FrameOf, Aligned, Leads, ChildOk;
    var s' := s.(mem := Write(s.mem, t, i, w));
    assert forall x, j: Index | x != t :: Read(s'.mem, x, j) == Read(s.mem, x, j);
    forall x | IsNode(s', x) ensures NodeOk(s', s'.use[x].path, s'.use[x].parent, x) {
      assert IsNode(s, x);
      LeadsFrame(s.mem, s'.mem, s.use[x].parent, x);
    }
    forall x, j: Index, c | IsTable(s', x) && Depth(s', x) < 3 && Leads(s'.mem, x, j, c)
      ensures ChildOk(s', x, j, c)
    {
      LeadsFrame(s.mem, s'.mem, x, c);
      assert ChildOk(s, x, j, c);
      ChildFrame(s, s', x, j, c);
    }
  }

  lemma LeadsFrame(mem: map<Frame, Table>, mem': map<Frame, Table>, x: Frame, c: Frame)
    requires forall j: Index :: Read(mem', x, j) == Read(mem, x, j)
    ensures forall j: Index :: Leads(mem', x, j, c) <==> Leads(mem, x, j, c)
  {
  }

  lemma ChildFrame(s: State, s': State, x: Frame, j: Index, c: Frame)
    requires x in s.use && s.use == s'.use
    ensures ChildOk(s', x, j, c) <==> ChildOk(s, x, j, c)
  {
  }

  /** The number of leading indices two paths share. */
  function Common(p: Path, q: Path): (n: nat)
    ensures n <= |p| && n <= |q|
  {
    if p == [] || q == [] || p[0] != q[0] then 0 else 1 + Common(p[1..], q[1..])
  }

  function FramesFor(l: Lookup): nat {
    if l.Missing? && l.level > 0 then l.level - 1 else 0
  }

  /** What a walk along q finds after the page at `path` was mapped through the same table: nothing
      changes for a page that was there, the mapped page appears, and any other absent page is now
      missed at the level where it leaves the mapped path, unless it was missed below that before. */
  function AfterMap(was: Lookup, path: Path, q: Path, page: Frame): Lookup {
    if was.Found? then was
    else if path == q then Found(page)
    else
      var leave := |q| - Common(path, q);
      Missing(if leave < was.level then leave else was.level)
  }

  ghost predicate CanMap(s: State, t: Frame, path: Path, flags: bv64) {
    && Inv(s) && IsTable(s, t) && |path| > 0 && Depth(s, t) + |path| == 4
    && EntryFlags(flags)
    && s.pos + FramesFor(Walk(s.mem, t, path)) <= |s.list|
  }

  ghost predicate Grows(s: State, s': State, t: Frame) 
    requires t in s.use
  {
    && s'.list == s.list && s'.mem.Keys == s.mem.Keys
    && (forall x | x in s.use :: x in s'.use && s'.use[x] == s.use[x])
    && (forall x | x in s'.use && x !in s.use :: s'.use[x].Node?)
    && (forall x, i | x in s.use && x != t && (s.use[x].Data? || Depth(s, x) <= Depth(s, t)) ::
          Read(s'.mem, x, i) == Read(s.mem, x, i))
  }

  lemma LinkGrows(s: State, t: Frame, i: Index, flags: bv64)
    requires Inv(s) && IsTable(s, t) && s.pos < |s.list|
    ensures Grows(s, Link(s, t, i, flags), t)
  {
    hide Present, TableOf, Entry, FrameOf, NodesOk, EdgesOk;
  }

  lemma LinkCanMap(s: State, t: Frame, path: Path, flags: bv64)
    requires CanMap(s, t, path, flags) && |path| > 1 && !Present(Read(s.mem, t, path[0]))
    ensures CanMap(Link(s, t, path[0], flags), NextFrame(s), path[1..], flags)
  {
    hide Present, TableOf, Entry, FrameOf, EntryFlags, NodesOk, EdgesOk;
    LinkKeepsInv(s, t, path[0], flags);
    ZeroIsAbsent();
  }

  lemma StepCanMap(s: State, t: Frame, path: Path, flags: bv64)
    requires CanMap(s, t, path, flags) && |path| > 1 && Present(Read(s.mem, t, path[0]))
    ensures CanMap(s, TableOf(Read(s.mem, t, path[0])), path[1..], flags)
  {
    hide Present, TableOf, Entry, FrameOf, EntryFlags, FreeOk, NodesOk;
    assert Leads(s.mem, t, path[0], TableOf(Read(s.mem, t, path[0])));
  }

  lemma GrowsTransitive(s: State, s1: State, s2: State, t: Frame, c: Frame)
    requires t in s.use && c in s1.use
    requires Grows(s, s1, t) && Grows(s1, s2, c)
    requires Depth(s, t) < Depth(s1, c)
    requires c in s.use ==> s.use[c].Node?
    ensures Grows(s, s2, t)
  {
  }

  lemma GrowsRead(s: State, s': State, t: Frame, x: Frame, i: Index)
    requires t in s.use && x in s.use && Grows(s, s', t)
    requires x != t && (s.use[x].Data? || Depth(s, x) <= Depth(s, t))
    ensures Read(s'.mem, x, i) == Read(s.mem, x, i)
  {
  }

  /** Mapping keeps frame ownership, costs exactly the tables that were missing, and leaves alone
      every data frame and every table that is not below t. */
  lemma {:induction false} MapKeepsInv(s: State, t: Frame, path: Path, pa: bv64, flags: bv64)
    requires CanMap(s, t, path, flags)
    ensures var s' := MapPath(s, t, path, pa, flags);
            Inv(s') && Grows(s, s', t) && s'.pos == s.pos + FramesFor(Walk(s.mem, t, path))
    decreases |path|
  {
    hide Present, TableOf, Entry, FrameOf, EntryFlags, FreeOk, NodesOk, EdgesOk;
    var i := path[0];
    var s' := MapPath(s, t, path, pa, flags);
    if |path| == 1 {
      WriteLeafKeepsInv(s, t, i, Entry(pa, flags));
    } else if Present(Read(s.mem, t, i)) {
      hide Grows;
      var c := TableOf(Read(s.mem, t, i));
      StepIsDeeper(s, t, i, c);
      StepCanMap(s, t, path, flags);
      MapKeepsInv(s, c, path[1..], pa, flags);
      GrowsReflexive(s, t);
      GrowsTransitive(s, s, s', t, c);
    } else {
      hide Grows;
      var s1, c := Link(s, t, i, flags), NextFrame(s);
      LinkGrows(s, t, i, flags);
      LinkCanMap(s, t, path, flags);
      FreshWalk(s, t, path, flags);
      MapKeepsInv(s1, c, path[1..], pa, flags);
      NextIsUnused(s);
      GrowsTransitive(s, s1, s', t, c);
    }
  }

  lemma NextIsUnused(s: State)
    requires Inv(s) && s.pos < |s.list|
    ensures NextFrame(s) !in s.use && NextFrame(s) in s.mem
  {
    hide Aligned, FrameOf, NodesOk, EdgesOk;
  }

  lemma GrowsReflexive(s: State, t: Frame)
    requires t in s.use
    ensures Grows(s, s, t)
  {
  }

  lemma StepIsDeeper(s: State, t: Frame, i: Index, c: Frame)
    requires Inv(s) && IsTable(s, t) && Depth(s, t) < 3
    requires Present(Read(s.mem, t, i)) && TableOf(Read(s.mem, t, i)) == c
    ensures ChildOk(s, t, i, c) && IsNode(s, c) && Depth(s, c) == Depth(s, t) + 1
  {
    hide Present, TableOf, Entry, FrameOf, FreeOk, NodesOk;
    assert Leads(s.mem, t, i, c);
  }

  /** A new table is empty: every walk from it misses at its first step. */
  lemma FreshWalk(s: State, t: Frame, path: Path, flags: bv64)
    requires Inv(s) && IsTable(s, t) && s.pos < |s.list| && |path| > 1
    ensures Walk(Link(s, t, path[0], flags).mem, NextFrame(s), path[1..]) == Missing(|path| - 1)
  {
    hide Present, TableOf, Entry, FrameOf, NodesOk, EdgesOk;
    NextIsUnused(s);
    ZeroIsAbsent();
  }

  lemma {:induction false} WalkLevel(mem: map<Frame, Table>, t: Frame, q: Path)
    requires |q| > 0
    ensures Walk(mem, t, q).Missing? ==> 1 <= Walk(mem, t, q).level <= |q|
    decreases |q|
  {
    if |q| > 1 && Present(Read(mem, t, q[0])) {
      WalkLevel(mem, TableOf(Read(mem, t, q[0])), q[1..]);
    }
  }

  lemma AfterMapStep(was: Lookup, path: Path, q: Path, page: Frame)
    requires |path| == |q| > 1
    ensures path[0] == q[0] ==> AfterMap(was, path, q, page) == AfterMap(was, path[1..], q[1..], page)
    ensures path[0] != q[0] && (was.Missing? ==> was.level <= |q|) ==> AfterMap(was, path, q, page) == was
  {
    if path[0] == q[0] {
      assert path == [path[0]] + path[1..] && q == [q[0]] + q[1..];
    }
  }

  lemma WalkStep(mem: map<Frame, Table>, t: Frame, q: Path, c: Frame)
    requires |q| > 1 && Leads(mem, t, q[0], c)
    ensures Walk(mem, t, q) == Walk(mem, c, q[1..])
  {
  }

  lemma WalkStops(mem: map<Frame, Table>, t: Frame, q: Path)
    requires |q| > 0 && !Present(Read(mem, t, q[0]))
    ensures Walk(mem, t, q) == Missing(|q|)
  {
  }

  lemma MapLeaf(s: State, t: Frame, path: Path, pa: bv64, flags: bv64, x: Frame, q: Path)
    requires CanMap(s, t, path, flags) && |path| == 1 == |q|
    ensures Walk(MapPath(s, t, path, pa, flags).mem, x, q)
         == if x == t then AfterMap(Walk(s.mem, t, q), path, q, PageOf(pa)) else Walk(s.mem, x, q)
  {
    hide Present, TableOf, PageOf, Entry, FrameOf, EntryFlags, FreeOk, NodesOk, EdgesOk;
    LeafRoundTrip(pa, flags);
  }

  /** One step of the induction below: mapping went through child c of t, its effect one level down
      is known for the child y that a walk along q takes from x, and so it is known at x. */
  lemma MapThrough(s: State, s': State, t: Frame, c: Frame, path: Path, page: Frame, x: Frame, y: Frame, q: Path)
    requires |q| == |path| > 1
    requires Leads(s.mem, t, path[0], c)
    requires Leads(s.mem, x, q[0], y) && Leads(s'.mem, x, q[0], y)
    requires Walk(s'.mem, y, q[1..])
          == if y == c then AfterMap(Walk(s.mem, c, q[1..]), path[1..], q[1..], page) else Walk(s.mem, y, q[1..])
    requires y == c <==> x == t && q[0] == path[0]
    ensures Walk(s'.mem, x, q)
         == if x == t then AfterMap(Walk(s.mem, t, q), path, q, page) else Walk(s.mem, x, q)
  {
    hide Present, TableOf;
    WalkStep(s.mem, x, q, y);
    WalkStep(s'.mem, x, q, y);
    WalkLevel(s.mem, x, q);
    AfterMapStep(Walk(s.mem, x, q), path, q, page);
  }

  /** What mapping through t does to the walks from tables of the same level below the roots. */
  lemma {:induction false} MapBelowRoot(s: State, t: Frame, path: Path, pa: bv64, flags: bv64, x: Frame, q: Path)
    requires CanMap(s, t, path, flags) && |path| < 4
    requires IsTable(s, x) && Depth(s, x) == Depth(s, t) && |q| == |path|
    ensures Walk(MapPath(s, t, path, pa, flags).mem, x, q)
         == if x == t then AfterMap(Walk(s.mem, t, q), path, q, PageOf(pa)) else Walk(s.mem, x, q)
    decreases |path|, 2
  {
    hide Present, TableOf, PageOf, Entry, FrameOf, EntryFlags, FreeOk, NodesOk, EdgesOk, Walk, AfterMap;
    if |path| == 1 {
      MapLeaf(s, t, path, pa, flags, x, q);
    } else if Present(Read(s.mem, t, path[0])) {
      MapPresent(s, t, path, pa, flags, x, q);
    } else {
      MapAbsent(s, t, path, pa, flags, x, q);
    }
  }

  lemma {:induction false} MapPresent(s: State, t: Frame, path: Path, pa: bv64, flags: bv64, x: Frame, q: Path)
    requires CanMap(s, t, path, flags) && 1 < |path| < 4
    requires IsTable(s, x) && Depth(s, x) == Depth(s, t) && |q| == |path|
    requires Present(Read(s.mem, t, path[0]))
    ensures Walk(MapPath(s, t, path, pa, flags).mem, x, q)
         == if x == t then AfterMap(Walk(s.mem, t, q), path, q, PageOf(pa)) else Walk(s.mem, x, q)
    decreases |path|, 0
  {
    hide Present, TableOf, PageOf, Entry, FrameOf, EntryFlags, FreeOk, NodesOk, EdgesOk, Walk, AfterMap;
    var c, y := TableOf(Read(s.mem, t, path[0])), TableOf(Read(s.mem, x, q[0]));
    var s' := MapPath(s, t, path, pa, flags);
    StepIsDeeper(s, t, path[0], c);
    StepCanMap(s, t, path, flags);
    MapKeepsInv(s, c, path[1..], pa, flags);
    GrowsRead(s, s', c, x, q[0]);
    hide Grows;
    if Present(Read(s.mem, x, q[0])) {
      StepIsDeeper(s, x, q[0], y);
      if y == c {
        OneParent(s, t, path[0], x, q[0], c);
      }
      MapBelowRoot(s, c, path[1..], pa, flags, y, q[1..]);
      MapThrough(s, s', t, c, path, PageOf(pa), x, y, q);
    } else {
      WalkStops(s.mem, x, q);
      WalkStops(s'.mem, x, q);
      AfterMapStep(Missing(|q|), path, q, PageOf(pa));
    }
  }

  /** Below the roots a table is entered once: it has one parent and one index in it. */
  lemma OneParent(s: State, t: Frame, i: Index, x: Frame, j: Index, c: Frame)
    requires IsNode(s, t) && IsNode(s, x) && ChildOk(s, t, i, c) && ChildOk(s, x, j, c)
    ensures t == x && i == j
  {
    assert s.use[c].path[|s.use[c].path| - 1] == i;
  }

  /** Linking a new table changes no walk except those that take the new entry. */
  lemma {:induction false} LinkWalk(s: State, t: Frame, i: Index, flags: bv64, x: Frame, q: Path)
    requires Inv(s) && IsTable(s, t) && IsTable(s, x) && s.pos < |s.list|
    requires |q| > 0 && Depth(s, x) + |q| == 4 && Depth(s, t) <= Depth(s, x)
    requires x != t || q[0] != i
    ensures Walk(Link(s, t, i, flags).mem, x, q) == Walk(s.mem, x, q)
    decreases |q|
  {
    hide Present, TableOf, PageOf, Entry, FrameOf, EntryFlags, FreeOk, NodesOk, EdgesOk;
    NextIsUnused(s);
    var s1 := Link(s, t, i, flags);
    assert Read(s1.mem, x, q[0]) == Read(s.mem, x, q[0]);
    hide Link;
    if |q| > 1 && Present(Read(s.mem, x, q[0])) {
      var y := TableOf(Read(s.mem, x, q[0]));
      StepIsDeeper(s, x, q[0], y);
      LinkWalk(s, t, i, flags, y, q[1..]);
    }
  }

  lemma LinkEnters(s: State, t: Frame, path: Path, flags: bv64)
    requires CanMap(s, t, path, flags) && |path| > 1 && !Present(Read(s.mem, t, path[0]))
    ensures var s1 := Link(s, t, path[0], flags);
            Leads(s1.mem, t, path[0], NextFrame(s)) && CanMap(s1, t, path, flags)
    ensures Grows(s, Link(s, t, path[0], flags), t) && s.pos < |s.list|
  {
    hide Present, TableOf, PageOf, Entry, FrameOf, EntryFlags, FreeOk, NodesOk, EdgesOk, Link;
    WalkStops(s.mem, t, path);
    LinkCanMap(s, t, path, flags);
    LinkGrows(s, t, path[0], flags);
    NextIsUnused(s);
    LinkLeads(s, t, path[0], flags, t, path[0], NextFrame(s));
    WalkStep(Link(s, t, path[0], flags).mem, t, path, NextFrame(s));
  }

  lemma {:induction false} MapAbsent(s: State, t: Frame, path: Path, pa: bv64, flags: bv64, x: Frame, q: Path)
    requires CanMap(s, t, path, flags) && 1 < |path| < 4
    requires IsTable(s, x) && Depth(s, x) == Depth(s, t) && |q| == |path|
    requires !Present(Read(s.mem, t, path[0]))
    ensures Walk(MapPath(s, t, path, pa, flags).mem, x, q)
         == if x == t then AfterMap(Walk(s.mem, t, q), path, q, PageOf(pa)) else Walk(s.mem, x, q)
    decreases |path|, 1
  {
    hide Present, TableOf, PageOf, Entry, FrameOf, EntryFlags, Inv, Walk, AfterMap, Link;
    var s1 := Link(s, t, path[0], flags);
    LinkEnters(s, t, path, flags);
    assert MapPath(s1, t, path, pa, flags) == MapPath(s, t, path, pa, flags);
    MapPresent(s1, t, path, pa, flags, x, q);
    if x == t && q[0] == path[0] {
      WalkStops(s.mem, t, q);
      FreshWalk(s, t, q, flags);
      WalkStep(s1.mem, t, q, NextFrame(s));
      AfterMapNear(|q|, path, q, PageOf(pa));
    } else {
      LinkWalk(s, t, path[0], flags, x, q);
    }
  }

  lemma AfterMapNear(n: nat, path: Path, q: Path, page: Frame)
    requires |path| == |q| == n > 1 && path[0] == q[0]
    ensures AfterMap(Missing(n), path, q, page) == AfterMap(Missing(n - 1), path, q, page)
  {
  }

  ghost predicate IsRoot(s: State, r: Frame) { r in s.use && s.use[r].Root? }

  /** Two roots share the table at top-level slot i. */
  predicate SharesSlot(mem: map<Frame, Table>, x: Frame, r: Frame, i: Index) {
    && Present(Read(mem, x, i)) && Present(Read(mem, r, i))
    && TableOf(Read(mem, x, i)) == TableOf(Read(mem, r, i))
  }

  lemma MapRootPresent(s: State, r: Frame, path: Path, pa: bv64, flags: bv64, x: Frame, q: Path)
    requires CanMap(s, r, path, flags) && IsRoot(s, r) && IsRoot(s, x) && |q| == 4
    requires Present(Read(s.mem, r, path[0]))
    ensures Walk(MapPath(s, r, path, pa, flags).mem, x, q)
         == if x == r || (q[0] == path[0] && SharesSlot(s.mem, x, r, q[0]))
            then AfterMap(Walk(s.mem, x, q), path, q, PageOf(pa))
            else Walk(s.mem, x, q)
  {
    hide Present, TableOf, PageOf, Entry, FrameOf, EntryFlags, FreeOk, NodesOk, EdgesOk, Walk, AfterMap;
    var c, y := TableOf(Read(s.mem, r, path[0])), TableOf(Read(s.mem, x, q[0]));
    var s' := MapPath(s, r, path, pa, flags);
    StepIsDeeper(s, r, path[0], c);
    StepCanMap(s, r, path, flags);
    MapKeepsInv(s, c, path[1..], pa, flags);
    GrowsRead(s, s', c, x, q[0]);
    hide Grows;
    if Present(Read(s.mem, x, q[0])) {
      StepIsDeeper(s, x, q[0], y);
      if y == c {
        assert s.use[c].path[0] == path[0] && s.use[c].path[0] == q[0];
      }
      MapBelowRoot(s, c, path[1..], pa, flags, y, q[1..]);
      WalkStep(s.mem, x, q, y);
      WalkStep(s'.mem, x, q, y);
    } else {
      WalkStops(s.mem, x, q);
      WalkStops(s'.mem, x, q);
    }
    WalkLevel(s.mem, x, q);
    AfterMapStep(Walk(s.mem, x, q), path, q, PageOf(pa));
  }

  /** What mapping through root r does to every walk from every root: roots that share the slot see
      exactly what r sees, and no other translation changes. */
  lemma MapEffect(s: State, r: Frame, path: Path, pa: bv64, flags: bv64, x: Frame, q: Path)
    requires CanMap(s, r, path, flags) && IsRoot(s, r) && IsRoot(s, x) && |q| == 4
    ensures Walk(MapPath(s, r, path, pa, flags).mem, x, q)
         == if x == r || (q[0] == path[0] && SharesSlot(s.mem, x, r, q[0]))
            then AfterMap(Walk(s.mem, x, q), path, q, PageOf(pa))
            else Walk(s.mem, x, q)
  {
    hide Present, TableOf, PageOf, Entry, FrameOf, EntryFlags, FreeOk, NodesOk, EdgesOk, Walk, AfterMap, Link;
    if Present(Read(s.mem, r, path[0])) {
      MapRootPresent(s, r, path, pa, flags, x, q);
    } else {
      var s1 := Link(s, r, path[0], flags);
      LinkEnters(s, r, path, flags);
      assert MapPath(s1, r, path, pa, flags) == MapPath(s, r, path, pa, flags);
      MapRootPresent(s1, r, path, pa, flags, x, q);
      if x == r && q[0] == path[0] {
        WalkStops(s.mem, r, q);
        FreshWalk(s, r, q, flags);
        WalkStep(s1.mem, r, q, NextFrame(s));
        AfterMapNear(|q|, path, q, PageOf(pa));
      } else {
        LinkWalk(s, r, path[0], flags, x, q);
        if x != r {
          LinkSharesNothing(s, r, path[0], flags, x, path[0]);
        }
      }
    }
  }

  lemma LinkSharesNothing(s: State, r: Frame, i: Index, flags: bv64, x: Frame, j: Index)
    requires Inv(s) && IsRoot(s, r) && IsRoot(s, x) && s.pos < |s.list| && x != r
    requires EntryFlags(flags) && !Present(Read(s.mem, r, i))
    ensures !SharesSlot(Link(s, r, i, flags).mem, x, r, i)
  {
    hide Present, TableOf, PageOf, Entry, FrameOf, EntryFlags, Link, FreeOk, NodesOk, Read;
    var s1 := Link(s, r, i, flags);
    var f := NextFrame(s);
    NextIsUnused(s);
    LinkLeads(s, r, i, flags, x, i, f);
    LinkLeads(s, r, i, flags, r, i, f);
    assert !Leads(s.mem, x, i, f);
  }

  /** Clears the leaf at the end of the path, if the walk gets there. */
  function UnmapPath(s: State, t: Frame, path: Path): State
    requires |path| > 0
    decreases |path|
  {
    var w := Read(s.mem, t, path[0]);
    if !Present(w) then s
    else if |path| == 1 then s.(mem := Write(s.mem, t, path[0], 0))
    else UnmapPath(s, TableOf(w), path[1..])
  }

  ghost predicate CanUnmap(s: State, t: Frame, path: Path) {
    Inv(s) && IsTable(s, t) && |path| > 0 && Depth(s, t) + |path| == 4
  }

  function AfterUnmap(was: Lookup, path: Path, q: Path): Lookup {
    if path == q && was.Found? then Missing(1) else was
  }

  lemma {:induction false} UnmapKeepsInv(s: State, t: Frame, path: Path)
    requires CanUnmap(s, t, path)
    ensures var s' := UnmapPath(s, t, path);
            Inv(s') && Grows(s, s', t) && s'.pos == s.pos && s'.use == s.use
    decreases |path|
  {
    hide Present, TableOf, FreeOk, NodesOk, EdgesOk;
    if Present(Read(s.mem, t, path[0])) {
      if |path| == 1 {
        WriteLeafKeepsInv(s, t, path[0], 0);
      } else {
        hide Grows;
        var c := TableOf(Read(s.mem, t, path[0]));
        StepIsDeeper(s, t, path[0], c);
        UnmapKeepsInv(s, c, path[1..]);
        GrowsReflexive(s, t);
        GrowsTransitive(s, s, UnmapPath(s, t, path), t, c);
      }
    } else {
      GrowsReflexive(s, t);
    }
  }

  lemma AfterUnmapStep(was: Lookup, path: Path, q: Path)
    requires |path| == |q| > 1
    ensures path[0] == q[0] ==> AfterUnmap(was, path, q) == AfterUnmap(was, path[1..], q[1..])
    ensures path[0] != q[0] ==> AfterUnmap(was, path, q) == was
  {
    if path[0] == q[0] {
      assert path == [path[0]] + path[1..] && q == [q[0]] + q[1..];
    }
  }

  lemma UnmapLeaf(s: State, t: Frame, path: Path, x: Frame, q: Path)
    requires CanUnmap(s, t, path) && |path| == 1 == |q|
    ensures Walk(UnmapPath(s, t, path).mem, x, q)
         == if x == t then AfterUnmap(Walk(s.mem, t, q), path, q) else Walk(s.mem, x, q)
  {
    hide Present, TableOf, PageOf, FreeOk, NodesOk, EdgesOk;
    ZeroIsAbsent();
  }

  /** What unmapping through t does to the walks from tables of the same level below the roots. */
  lemma {:induction false} UnmapBelowRoot(s: State, t: Frame, path: Path, x: Frame, q: Path)
    requires CanUnmap(s, t, path) && |path| < 4
    requires IsTable(s, x) && Depth(s, x) == Depth(s, t) && |q| == |path|
    ensures Walk(UnmapPath(s, t, path).mem, x, q)
         == if x == t then AfterUnmap(Walk(s.mem, t, q), path, q) else Walk(s.mem, x, q)
    decreases |path|
  {
    hide Present, TableOf, PageOf, FreeOk, NodesOk, EdgesOk, Walk, AfterUnmap;
    if |path| == 1 {
      UnmapLeaf(s, t, path, x, q);
    } else if !Present(Read(s.mem, t, path[0])) {
      UnmapAbsent(s, t, path, q);
    } else {
      UnmapStep(s, t, path, x, q);
      var c, y := TableOf(Read(s.mem, t, path[0])), TableOf(Read(s.mem, x, q[0]));
      AfterUnmapStep(Walk(s.mem, x, q), path, q);
      if Present(Read(s.mem, x, q[0])) {
        UnmapBelowRoot(s, c, path[1..], y, q[1..]);
        if y == c {
          OneParent(s, t, path[0], x, q[0], c);
        }
      }
    }
  }

  lemma UnmapAbsent(s: State, t: Frame, path: Path, q: Path)
    requires |path| == |q| > 0 && !Present(Read(s.mem, t, path[0]))
    ensures AfterUnmap(Walk(s.mem, t, q), path, q) == Walk(s.mem, t, q)
  {
  }

  /** Unmapping below a present entry of t leaves every table of t's level as it is, so walks from
      there go to the same children as before. */
  lemma UnmapStep(s: State, t: Frame, path: Path, x: Frame, q: Path)
    requires CanUnmap(s, t, path) && |path| > 1 && |q| == |path|
    requires IsTable(s, x) && Depth(s, x) == Depth(s, t)
    requires Present(Read(s.mem, t, path[0]))
    ensures var c, y := TableOf(Read(s.mem, t, path[0])), TableOf(Read(s.mem, x, q[0]));
            var s' := UnmapPath(s, t, path);
            && ChildOk(s, t, path[0], c) && IsNode(s, c) && Depth(s, c) == Depth(s, t) + 1
            && s' == UnmapPath(s, c, path[1..])
            && if Present(Read(s.mem, x, q[0])) then
                 && ChildOk(s, x, q[0], y) && IsNode(s, y) && Depth(s, y) == Depth(s, t) + 1
                 && Walk(s.mem, x, q) == Walk(s.mem, y, q[1..])
                 && Walk(s'.mem, x, q) == Walk(s'.mem, y, q[1..])
               else
                 Walk(s.mem, x, q) == Walk(s'.mem, x, q)
  {
    hide Present, TableOf, PageOf, FreeOk, NodesOk, EdgesOk, Walk;
    var s' := UnmapPath(s, t, path);
    var c, y := TableOf(Read(s.mem, t, path[0])), TableOf(Read(s.mem, x, q[0]));
    StepIsDeeper(s, t, path[0], c);
    UnmapKeepsInv(s, c, path[1..]);
    GrowsRead(s, s', c, x, q[0]);
    hide Grows;
    if Present(Read(s.mem, x, q[0])) {
      StepIsDeeper(s, x, q[0], y);
      WalkStep(s.mem, x, q, y);
      WalkStep(s'.mem, x, q, y);
    } else {
      WalkStops(s.mem, x, q);
      WalkStops(s'.mem, x, q);
    }
  }

  /** What unmapping through root r does to every walk from every root. */
  lemma UnmapEffect(s: State, r: Frame, path: Path, x: Frame, q: Path)
    requires CanUnmap(s, r, path) && IsRoot(s, r) && IsRoot(s, x) && |path| == 4 == |q|
    ensures Walk(UnmapPath(s, r, path).mem, x, q)
         == if x == r || (q[0] == path[0] && SharesSlot(s.mem, x, r, q[0]))
            then AfterUnmap(Walk(s.mem, x, q), path, q)
            else Walk(s.mem, x, q)
  {
    hide Present, TableOf, PageOf, FreeOk, NodesOk, EdgesOk, Walk, AfterUnmap;
    if !Present(Read(s.mem, r, path[0])) {
      UnmapAbsent(s, r, path, q);
    } else {
      UnmapStep(s, r, path, x, q);
      var c, y := TableOf(Read(s.mem, r, path[0])), TableOf(Read(s.mem, x, q[0]));
      AfterUnmapStep(Walk(s.mem, x, q), path, q);
      if Present(Read(s.mem, x, q[0])) {
        UnmapBelowRoot(s, c, path[1..], y, q[1..]);
        if y == c {
          assert s.use[c].path[0] == path[0] && s.use[c].path[0] == q[0];
        }
      } else if q[0] == path[0] {
        WalkStops(s.mem, x, q);
        assert AfterUnmap(Walk(s.mem, x, q), path, q) == Walk(s.mem, x, q) by { UnmapAbsent(s, x, path, q); }
      }
    }
  }
}
