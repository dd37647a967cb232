/** Which rights a mapping gives.  The processor combines the flags of all the entries that a walk passes, so the
    flags along a walk are followed through every operation, and over every run. */
module AccessRights {
  import opened Prelude
  import opened PageEntry
  import opened PageTable
  import opened AddressSpace

  /** The flags of the entries a walk passes, top level first, until it misses or is at its end. */
  function Trail(mem: map<Frame, Table>, t: Frame, q: Path): (r: seq<bv64>)
    ensures |r| <= |q|
    decreases |q|
  {
    if q == [] || !Present(Read(mem, t, q[0])) then []
    else [Flags(Read(mem, t, q[0]))] + Trail(mem, TableOf(Read(mem, t, q[0])), q[1..])
  }

  /** A walk finds its page exactly if it passes an entry at every level. */
  lemma {:induction false} TrailOfWalk(mem: map<Frame, Table>, t: Frame, q: Path)
    requires |q| > 0
    ensures |Trail(mem, t, q)| == match Walk(mem, t, q) case Found(_) => |q| case Missing(level) => |q| - level
    ensures Walk(mem, t, q).Missing? ==> Walk(mem, t, q).level <= |q|
    decreases |q|
  {
    hide Present, TableOf, PageOf, Flags, Read;
    if |q| > 1 && Present(Read(mem, t, q[0])) {
      TrailOfWalk(mem, TableOf(Read(mem, t, q[0])), q[1..]);
    } else if Present(Read(mem, t, q[0])) {
      assert Trail(mem, TableOf(Read(mem, t, q[0])), q[1..]) == [];
    }
  }

  /** The flags that a mapping of `path` adds to a trail of n entries along q. */
  function Added(n: nat, path: Path, q: Path, pa: bv64, flags: bv64): seq<bv64> {
    seq(if n < Common(path, q) then Common(path, q) - n else 0,
        k => if n + k + 1 == |path| then Flags(pa) | flags else flags)
  }

  lemma AddedStep(n: nat, path: Path, q: Path, pa: bv64, flags: bv64)
    requires |path| == |q| > 0
    ensures path[0] != q[0] ==> Added(n, path, q, pa, flags) == []
    ensures path[0] == q[0] && n > 0 ==> Added(n, path, q, pa, flags) == Added(n - 1, path[1..], q[1..], pa, flags)
    ensures path[0] == q[0] && |q| > 1 ==>
              Added(0, path, q, pa, flags) == [flags] + Added(1, path, q, pa, flags)
    ensures path[0] == q[0] && |q| == 1 ==> Added(0, path, q, pa, flags) == [Flags(pa) | flags]
  {
    hide Flags;
  }

  lemma TrailStep(mem: map<Frame, Table>, t: Frame, q: Path, c: Frame)
    requires |q| > 0 && Leads(mem, t, q[0], c)
    ensures Trail(mem, t, q) == [Flags(Read(mem, t, q[0]))] + Trail(mem, c, q[1..])
  {
  }

  lemma TrailStops(mem: map<Frame, Table>, t: Frame, q: Path)
    requires |q| > 0 && !Present(Read(mem, t, q[0]))
    ensures Trail(mem, t, q) == []
  {
  }

  /** What is added to a trail below an entry that stays is added to the trail through it. */
  lemma TrailGrows(mem: map<Frame, Table>, mem': map<Frame, Table>, x: Frame, q: Path, y: Frame, more: seq<bv64>)
    requires |q| > 0 && Leads(mem, x, q[0], y) && Read(mem', x, q[0]) == Read(mem, x, q[0])
    requires Trail(mem', y, q[1..]) == Trail(mem, y, q[1..]) + more
    ensures Trail(mem', x, q) == Trail(mem, x, q) + more && |Trail(mem, x, q)| == 1 + |Trail(mem, y, q[1..])|
  {
    hide Present, TableOf, Flags, Read;
  }

  // ----- What mapping does -----

  lemma TrailOfLeaf(s: State, t: Frame, path: Path, pa: bv64, flags: bv64, x: Frame, q: Path)
    requires CanMap(s, t, path, flags) && |path| == 1 == |q|
    ensures Trail(MapPath(s, t, path, pa, flags).mem, x, q)
         == Trail(s.mem, x, q) + if x == t then Added(|Trail(s.mem, x, q)|, path, q, pa, flags) else []
  {
    hide Present, TableOf, PageOf, Entry, FrameOf, EntryFlags, FreeOk, NodesOk, EdgesOk, Flags, Added;
    EntryCarries(pa, flags);
    LeafRoundTrip(pa, flags);
    AddedStep(|Trail(s.mem, x, q)|, path, q, pa, flags);
    assert Common(path[1..], q[1..]) == 0;
    assert |Trail(s.mem, x, q)| == 1 && path[0] == q[0] ==> Added(0, path[1..], q[1..], pa, flags) == [] by {
      AddedNothing(path[1..], q[1..], pa, flags);
    }
  }

  lemma AddedNothing(path: Path, q: Path, pa: bv64, flags: bv64)
    requires path == [] || q == []
    ensures Added(0, path, q, pa, flags) == []
  {
  }

  /** Linking a new table changes no trail except those that take the new entry. */
  lemma {:induction false} LinkTrail(s: State, t: Frame, i: Index, flags: bv64, x: Frame, q: Path)
    requires Inv(s) && IsTable(s, t) && IsTable(s, x) && s.pos < |s.list|
    requires |q| > 0 && Depth(s, x) + |q| == 4 && Depth(s, t) <= Depth(s, x)
    requires x != t || q[0] != i
    ensures Trail(Link(s, t, i, flags).mem, x, q) == Trail(s.mem, x, q)
    decreases |q|
  {
    hide Present, TableOf, PageOf, Entry, FrameOf, EntryFlags, FreeOk, NodesOk, EdgesOk, Flags;
    NextIsUnused(s);
    var s1 := Link(s, t, i, flags);
    assert Read(s1.mem, x, q[0]) == Read(s.mem, x, q[0]);
    hide Link;
    if Present(Read(s.mem, x, q[0])) {
      var y := TableOf(Read(s.mem, x, q[0]));
      if |q| > 1 {
        StepIsDeeper(s, x, q[0], y);
        LinkTrail(s, t, i, flags, y, q[1..]);
      } else {
        assert q[1..] == [];
      }
    }
  }

  /** A new table is passed with the flags it was entered with, and is empty. */
  lemma TrailOfLink(s: State, t: Frame, q: Path, flags: bv64)
    requires Inv(s) && IsTable(s, t) && s.pos < |s.list| && |q| > 1 && EntryFlags(flags)
    ensures Trail(Link(s, t, q[0], flags).mem, t, q) == [flags]
  {
    hide Present, TableOf, Entry, FrameOf, NodesOk, EdgesOk, EntryFlags, Flags;
    NextIsUnused(s);
    ZeroIsAbsent();
    assert Aligned(NextAddress(s));
    EntryCarries(NextAddress(s), flags);
    EntryRoundTrip(NextAddress(s), flags);
    var s1 := Link(s, t, q[0], flags);
    TrailStep(s1.mem, t, q, NextFrame(s));
    TrailStops(s1.mem, NextFrame(s), q[1..]);
  }

  /** What mapping through t does to the trails from the tables of its level below the roots. */
  lemma {:induction false} TrailBelowRoot(s: State, t: Frame, path: Path, pa: bv64, flags: bv64, x: Frame, q: Path)
    requires CanMap(s, t, path, flags) && |path| < 4
    requires IsTable(s, x) && Depth(s, x) == Depth(s, t) && |q| == |path|
    ensures Trail(MapPath(s, t, path, pa, flags).mem, x, q)
         == Trail(s.mem, x, q) + if x == t then Added(|Trail(s.mem, x, q)|, path, q, pa, flags) else []
    decreases |path|, 2
  {
    hide Present, TableOf, PageOf, Entry, FrameOf, EntryFlags, FreeOk, NodesOk, EdgesOk, Trail, Added;
    if |path| == 1 {
      TrailOfLeaf(s, t, path, pa, flags, x, q);
    } else if Present(Read(s.mem, t, path[0])) {
      TrailThroughPresent(s, t, path, pa, flags, x, q);
    } else {
      TrailThroughAbsent(s, t, path, pa, flags, x, q);
    }
  }

  lemma {:induction false} TrailThroughPresent(s: State, t: Frame, path: Path, pa: bv64, flags: bv64, x: Frame, q: Path)
    requires CanMap(s, t, path, flags) && 1 < |path| < 4
    requires IsTable(s, x) && Depth(s, x) == Depth(s, t) && |q| == |path|
    requires Present(Read(s.mem, t, path[0]))
    ensures Trail(MapPath(s, t, path, pa, flags).mem, x, q)
         == Trail(s.mem, x, q) + if x == t then Added(|Trail(s.mem, x, q)|, path, q, pa, flags) else []
    decreases |path|, 0
  {
    hide Present, TableOf, PageOf, Entry, FrameOf, EntryFlags, FreeOk, NodesOk, EdgesOk, Trail, Added, Flags;
    var c, y := TableOf(Read(s.mem, t, path[0])), TableOf(Read(s.mem, x, q[0]));
    var s' := MapPath(s, t, path, pa, flags);
    StepIsDeeper(s, t, path[0], c);
    StepCanMap(s, t, path, flags);
    MapKeepsInv(s, c, path[1..], pa, flags);
    GrowsRead(s, s', c, x, q[0]);
    hide Grows;
    AddedStep(|Trail(s.mem, x, q)|, path, q, pa, flags);
    if Present(Read(s.mem, x, q[0])) {
      StepIsDeeper(s, x, q[0], y);
      if y == c {
        OneParent(s, t, path[0], x, q[0], c);
      }
      TrailBelowRoot(s, c, path[1..], pa, flags, y, q[1..]);
      TrailGrows(s.mem, s'.mem, x, q, y,
                 if y == c then Added(|Trail(s.mem, y, q[1..])|, path[1..], q[1..], pa, flags) else []);
    } else {
      TrailStops(s.mem, x, q);
      TrailStops(s'.mem, x, q);
    }
  }

  lemma {:induction false} TrailThroughAbsent(s: State, t: Frame, path: Path, pa: bv64, flags: bv64, x: Frame, q: Path)
    requires CanMap(s, t, path, flags) && 1 < |path| < 4
    requires IsTable(s, x) && Depth(s, x) == Depth(s, t) && |q| == |path|
    requires !Present(Read(s.mem, t, path[0]))
    ensures Trail(MapPath(s, t, path, pa, flags).mem, x, q)
         == Trail(s.mem, x, q) + if x == t then Added(|Trail(s.mem, x, q)|, path, q, pa, flags) else []
    decreases |path|, 1
  {
    hide Present, TableOf, PageOf, Entry, FrameOf, EntryFlags, Inv, Walk, Trail, Added, Link;
    var s1 := Link(s, t, path[0], flags);
    LinkEnters(s, t, path, flags);
    assert MapPath(s1, t, path, pa, flags) == MapPath(s, t, path, pa, flags);
    TrailThroughPresent(s1, t, path, pa, flags, x, q);
    if x == t && q[0] == path[0] {
      TrailStops(s.mem, t, q);
      TrailOfLink(s, t, q, flags);
      AddedStep(0, path, q, pa, flags);
    } else {
      LinkTrail(s, t, path[0], flags, x, q);
      if x == t {
        AddedStep(|Trail(s.mem, x, q)|, path, q, pa, flags);
        AddedStep(|Trail(s1.mem, x, q)|, path, q, pa, flags);
      }
    }
  }

  /** Root x sees what is mapped through root r along q. */
  ghost predicate Sees(s: State, x: Frame, r: Frame, i: Index) { x == r || SharesSlot(s.mem, x, r, i) }

  /** Two filled slots of roots hold the same table exactly if they are the same slot and it is shared. */
  lemma SlotsMeet(s: State, r: Frame, i: Index, x: Frame, j: Index)
    requires Inv(s) && IsRoot(s, r) && IsRoot(s, x) && Present(Read(s.mem, r, i)) && Present(Read(s.mem, x, j))
    ensures TableOf(Read(s.mem, x, j)) == TableOf(Read(s.mem, r, i)) <==> j == i && Sees(s, x, r, i)
  {
    hide Present, TableOf, FreeOk, NodesOk, EdgesOk, Read;
    StepIsDeeper(s, r, i, TableOf(Read(s.mem, r, i)));
    StepIsDeeper(s, x, j, TableOf(Read(s.mem, x, j)));
    if TableOf(Read(s.mem, x, j)) == TableOf(Read(s.mem, r, i)) {
      var c := TableOf(Read(s.mem, r, i));
      assert s.use[c].path[0] == i && s.use[c].path[0] == j;
    }
  }

  lemma SeenIsFilled(s: State, r: Frame, i: Index, x: Frame)
    requires Sees(s, x, r, i) && x != r
    ensures Present(Read(s.mem, r, i)) && Present(Read(s.mem, x, i))
  {
    hide Present, Read;
  }

  lemma RootThroughPresent(s: State, r: Frame, path: Path, pa: bv64, flags: bv64, x: Frame, q: Path)
    requires CanMap(s, r, path, flags) && IsRoot(s, r) && IsRoot(s, x) && |q| == 4
    requires Present(Read(s.mem, r, path[0]))
    ensures Trail(MapPath(s, r, path, pa, flags).mem, x, q)
         == Trail(s.mem, x, q)
            + if Sees(s, x, r, path[0]) then Added(|Trail(s.mem, x, q)|, path, q, pa, flags) else []
  {
    hide Present, TableOf, PageOf, Entry, FrameOf, EntryFlags, FreeOk, NodesOk, EdgesOk, Trail, Added, Flags, Sees,
         Walk;
    var c, y := TableOf(Read(s.mem, r, path[0])), TableOf(Read(s.mem, x, q[0]));
    var s' := MapPath(s, r, path, pa, flags);
    StepIsDeeper(s, r, path[0], c);
    StepCanMap(s, r, path, flags);
    MapKeepsInv(s, c, path[1..], pa, flags);
    GrowsRead(s, s', c, x, q[0]);
    hide Grows;
    AddedStep(|Trail(s.mem, x, q)|, path, q, pa, flags);
    if Present(Read(s.mem, x, q[0])) {
      StepIsDeeper(s, x, q[0], y);
      SlotsMeet(s, r, path[0], x, q[0]);
      TrailBelowRoot(s, c, path[1..], pa, flags, y, q[1..]);
      TrailGrows(s.mem, s'.mem, x, q, y,
                 if y == c then Added(|Trail(s.mem, y, q[1..])|, path[1..], q[1..], pa, flags) else []);
    } else {
      TrailStops(s.mem, x, q);
      TrailStops(s'.mem, x, q);
      if q[0] == path[0] && Sees(s, x, r, path[0]) && x != r {
        SeenIsFilled(s, r, path[0], x);
      }
    }
  }

  /** What mapping through root r does to every trail from every root: entries that were there keep their flags,
      new ones on the mapped path get the given flags, for r and the roots that share the slot, and no other trail
      changes. */
  lemma MapTrail(s: State, r: Frame, path: Path, pa: bv64, flags: bv64, x: Frame, q: Path)
    requires CanMap(s, r, path, flags) && IsRoot(s, r) && IsRoot(s, x) && |q| == 4
    ensures Trail(MapPath(s, r, path, pa, flags).mem, x, q)
         == Trail(s.mem, x, q)
            + if Sees(s, x, r, path[0]) then Added(|Trail(s.mem, x, q)|, path, q, pa, flags) else []
  {
    hide Present, TableOf, PageOf, Entry, FrameOf, EntryFlags, FreeOk, NodesOk, EdgesOk, Trail, Added, Link, Walk;
    if Present(Read(s.mem, r, path[0])) {
      RootThroughPresent(s, r, path, pa, flags, x, q);
    } else {
      var s1 := Link(s, r, path[0], flags);
      LinkEnters(s, r, path, flags);
      assert MapPath(s1, r, path, pa, flags) == MapPath(s, r, path, pa, flags);
      RootThroughPresent(s1, r, path, pa, flags, x, q);
      AddedStep(|Trail(s1.mem, x, q)|, path, q, pa, flags);
      if x == r && q[0] == path[0] {
        TrailStops(s.mem, r, q);
        TrailOfLink(s, r, q, flags);
        AddedStep(0, path, q, pa, flags);
      } else {
        LinkTrail(s, r, path[0], flags, x, q);
        if x != r {
          LinkSharesNothing(s, r, path[0], flags, x, path[0]);
        }
      }
    }
  }

  // ----- What the other operations do -----

  /** A trail depends only on the tables it can reach. */
  lemma {:induction false} TrailFrame(s: State, mem': map<Frame, Table>, x: Frame, q: Path)
    requires Inv(s) && IsTable(s, x) && |q| > 0 && Depth(s, x) + |q| == 4
    requires forall y, i | IsTable(s, y) :: Read(mem', y, i) == Read(s.mem, y, i)
    ensures Trail(mem', x, q) == Trail(s.mem, x, q)
    decreases |q|
  {
    hide Present, TableOf, PageOf, FreeOk, NodesOk, EdgesOk, Accounted, Read, Flags;
    if Present(Read(s.mem, x, q[0])) {
      if |q| > 1 {
        StepIsDeeper(s, x, q[0], TableOf(Read(s.mem, x, q[0])));
        TrailFrame(s, mem', TableOf(Read(s.mem, x, q[0])), q[1..]);
      } else {
        assert q[1..] == [];
      }
    }
  }

  /** A trail without its last entry, if that is the leaf which unmapping `path` clears. */
  function Cleared(was: seq<bv64>, path: Path, q: Path): seq<bv64> {
    if path == q && |was| == |q| > 0 then was[..|q| - 1] else was
  }

  lemma {:induction false} UnmapTrailBelow(s: State, t: Frame, path: Path, x: Frame, q: Path)
    requires CanUnmap(s, t, path) && |path| < 4
    requires IsTable(s, x) && Depth(s, x) == Depth(s, t) && |q| == |path|
    ensures Trail(UnmapPath(s, t, path).mem, x, q)
         == if x == t then Cleared(Trail(s.mem, x, q), path, q) else Trail(s.mem, x, q)
    decreases |path|
  {
    hide Present, TableOf, PageOf, FreeOk, NodesOk, EdgesOk, Trail, Cleared, Flags, Walk;
    if |path| == 1 {
      UnmapTrailLeaf(s, t, path, x, q);
    } else if !Present(Read(s.mem, t, path[0])) {
      UnmapTrailAbsent(s, t, path, q);
    } else {
      UnmapStep(s, t, path, x, q);
      var c, y := TableOf(Read(s.mem, t, path[0])), TableOf(Read(s.mem, x, q[0]));
      UnmapReads(s, t, path, x, q[0]);
      if Present(Read(s.mem, x, q[0])) {
        UnmapTrailBelow(s, c, path[1..], y, q[1..]);
        TrailStep(s.mem, x, q, y);
        TrailStep(UnmapPath(s, t, path).mem, x, q, y);
        ClearedStep(Flags(Read(s.mem, x, q[0])), Trail(s.mem, y, q[1..]), path, q);
        if y == c {
          OneParent(s, t, path[0], x, q[0], c);
        }
      } else {
        TrailStops(s.mem, x, q);
        TrailStops(UnmapPath(s, t, path).mem, x, q);
        ClearedShort([], path, q);
      }
    }
  }

  lemma UnmapTrailLeaf(s: State, t: Frame, path: Path, x: Frame, q: Path)
    requires CanUnmap(s, t, path) && |path| == 1 == |q|
    ensures Trail(UnmapPath(s, t, path).mem, x, q)
         == if x == t then Cleared(Trail(s.mem, x, q), path, q) else Trail(s.mem, x, q)
  {
    hide Present, TableOf, PageOf, FreeOk, NodesOk, EdgesOk, Flags;
    ZeroIsAbsent();
  }

  lemma UnmapTrailAbsent(s: State, t: Frame, path: Path, q: Path)
    requires |path| == |q| > 0 && !Present(Read(s.mem, t, path[0]))
    ensures Cleared(Trail(s.mem, t, q), path, q) == Trail(s.mem, t, q)
  {
  }

  lemma ClearedShort(was: seq<bv64>, path: Path, q: Path)
    requires |was| < |q|
    ensures Cleared(was, path, q) == was
  {
  }

  lemma ClearedStep(w: bv64, was: seq<bv64>, path: Path, q: Path)
    requires |path| == |q| > 1
    ensures path[0] == q[0] ==> Cleared([w] + was, path, q) == [w] + Cleared(was, path[1..], q[1..])
    ensures path[0] != q[0] ==> Cleared([w] + was, path, q) == [w] + was
  {
    if path[0] == q[0] {
      assert path == [path[0]] + path[1..] && q == [q[0]] + q[1..];
    }
  }

  /** Unmapping below t changes no entry of a table of t's level. */
  lemma UnmapReads(s: State, t: Frame, path: Path, x: Frame, i: Index)
    requires CanUnmap(s, t, path) && |path| > 1 && Present(Read(s.mem, t, path[0]))
    requires IsTable(s, x) && Depth(s, x) == Depth(s, t)
    ensures Read(UnmapPath(s, t, path).mem, x, i) == Read(s.mem, x, i)
  {
    hide Present, TableOf, PageOf, FreeOk, NodesOk, EdgesOk;
    var c := TableOf(Read(s.mem, t, path[0]));
    StepIsDeeper(s, t, path[0], c);
    UnmapKeepsInv(s, c, path[1..]);
    GrowsRead(s, UnmapPath(s, t, path), c, x, i);
  }

  /** What unmapping through root r does to every trail from every root. */
  lemma UnmapTrail(s: State, r: Frame, path: Path, x: Frame, q: Path)
    requires CanUnmap(s, r, path) && IsRoot(s, r) && IsRoot(s, x) && |path| == 4 == |q|
    ensures Trail(UnmapPath(s, r, path).mem, x, q)
         == if Sees(s, x, r, path[0]) then Cleared(Trail(s.mem, x, q), path, q) else Trail(s.mem, x, q)
  {
    hide Present, TableOf, PageOf, FreeOk, NodesOk, EdgesOk, Trail, Cleared, Flags, Walk, Sees;
    if !Present(Read(s.mem, r, path[0])) {
      UnmapTrailAbsent(s, r, path, q);
      if Sees(s, x, r, path[0]) && x != r {
        SeenIsFilled(s, r, path[0], x);
      }
    } else {
      UnmapStep(s, r, path, x, q);
      UnmapReads(s, r, path, x, q[0]);
      var c, y := TableOf(Read(s.mem, r, path[0])), TableOf(Read(s.mem, x, q[0]));
      if Present(Read(s.mem, x, q[0])) {
        UnmapTrailBelow(s, c, path[1..], y, q[1..]);
        TrailStep(s.mem, x, q, y);
        TrailStep(UnmapPath(s, r, path).mem, x, q, y);
        ClearedStep(Flags(Read(s.mem, x, q[0])), Trail(s.mem, y, q[1..]), path, q);
        SlotsMeet(s, r, path[0], x, q[0]);
      } else {
        TrailStops(s.mem, x, q);
        TrailStops(UnmapPath(s, r, path).mem, x, q);
        ClearedShort([], path, q);
      }
    }
  }

  /** The entries of a new root are copies, so its trails are those of the roots they come from. */
  lemma ForkTrail(s: State, source: Option<Frame>, k: Frame, x: Frame, q: Path)
    requires Inv(s) && Legal(s, Fork(source, k, NextFrame(s))) && |q| == 4
    requires IsRoot(NewRoot(s, source, k), x)
    ensures Trail(NewRoot(s, source, k).mem, x, q)
         == if x != NextFrame(s) then Trail(s.mem, x, q)
            else if q[0] >= 256 then Trail(s.mem, k, q)
            else if source.Some? then Trail(s.mem, source.value, q) else []
  {
    hide Present, TableOf, FrameOf, Aligned, FreeOk, Accounted, NodesOk, EdgesOk, ForkTable, Read, Trail, Flags;
    var s' := NewRoot(s, source, k);
    NextIsUnused(s);
    ZeroIsAbsent();
    forall y, i | IsTable(s, y) ensures Read(s'.mem, y, i) == Read(s.mem, y, i) {
      ForkReads(s, source, k, y, i);
    }
    ForkReads(s, source, k, x, q[0]);
    if x != NextFrame(s) {
      TrailFrame(s, s'.mem, x, q);
    } else if q[0] < 256 && source.None? {
      TrailStops(s'.mem, x, q);
    } else {
      var from := if q[0] >= 256 then k else source.value;
      var c := TableOf(Read(s.mem, from, q[0]));
      if Present(Read(s.mem, from, q[0])) {
        StepIsDeeper(s, from, q[0], c);
        TrailFrame(s, s'.mem, c, q[1..]);
        TrailStep(s.mem, from, q, c);
        TrailStep(s'.mem, x, q, c);
      } else {
        TrailStops(s.mem, from, q);
        TrailStops(s'.mem, x, q);
      }
    }
  }

  // ----- Rights -----

  /** The write bit (2) and the user bit (4) of a walk: those that every entry on it has. */
  function Rights(trail: seq<bv64>): bv64 {
    if trail == [] then 6 else Both(trail[0] & 6, Rights(trail[1..]))
  }

  function Both(a: bv64, b: bv64): bv64 { a & b }

  lemma {:induction false} RightsJoin(a: seq<bv64>, b: seq<bv64>)
    ensures Rights(a + b) == Rights(a) & Rights(b)
    decreases |a|
  {
    if a == [] {
      assert a + b == b;
      RightsBits(b);
    } else {
      assert (a + b)[1..] == a[1..] + b;
      RightsJoin(a[1..], b);
      Associative(a[0] & 6, Rights(a[1..]), Rights(b));
    }
  }

  lemma Associative(a: bv64, b: bv64, c: bv64)
    ensures Both(a, b & c) == Both(a, b) & c
  {
  }

  lemma {:induction false} RightsBits(a: seq<bv64>)
    ensures 6 & Rights(a) == Rights(a)
  {
    if a != [] {
      Associative(6, a[0] & 6, Rights(a[1..]));
      assert 6 & (a[0] & 6) == a[0] & 6;
    }
  }

  lemma {:induction false} RightsOfCopies(n: nat, f: bv64)
    requires n > 0
    ensures Rights(seq(n, _ => f)) == f & 6
    decreases n
  {
    var a := seq(n, _ => f);
    assert a[1..] == seq(n - 1, _ => f);
    if n > 1 {
      RightsOfCopies(n - 1, f);
      assert Both(f & 6, f & 6) == f & 6;
    } else {
      assert Both(f & 6, 6) == f & 6;
    }
  }

  /** Entries with both bits take no right away. */
  lemma FullEntries(was: seq<bv64>, n: nat)
    ensures Rights(was + seq(n, _ => 7)) == Rights(was)
  {
    if n == 0 {
      assert was + seq(n, _ => 7) == was;
    } else {
      hide Rights;
      RightsJoin(was, seq(n, _ => 7));
      RightsOfCopies(n, 7);
      RightsBits(was);
      AllRights(Rights(was));
    }
  }

  lemma AllRights(r: bv64)
    requires 6 & r == r
    ensures r & (7 & 6) == r
  {
  }

  lemma {:induction false} CommonSelf(q: Path)
    ensures Common(q, q) == |q|
  {
    if q != [] {
      CommonSelf(q[1..]);
    }
  }

  /** Mapping an absent page at an aligned address: every entry that was missing carries exactly the given flags, so
      the page gets the rights of the flags within those that the tables already there allow. */
  lemma MapGivesRights(s: State, r: Frame, path: Path, pa: bv64, flags: bv64, x: Frame)
    requires CanMap(s, r, path, flags) && IsRoot(s, r) && IsRoot(s, x) && |path| == 4 && Sees(s, x, r, path[0])
    requires Walk(s.mem, x, path).Missing? && Aligned(pa)
    ensures var was, now := Trail(s.mem, x, path), Trail(MapPath(s, r, path, pa, flags).mem, x, path);
            && |was| < 4 && now == was + seq(4 - |was|, _ => flags)
            && Rights(now) == Rights(was) & flags & 6
  {
    hide Trail, MapPath, Inv, Walk, Flags, Sees, Rights, EntryFlags, Aligned;
    var was := Trail(s.mem, x, path);
    MapTrail(s, r, path, pa, flags, x, path);
    TrailOfWalk(s.mem, x, path);
    WalkLevel(s.mem, x, path);
    CommonSelf(path);
    EntryCarries(pa, flags);
    assert 0 | flags == flags;
    assert Added(|was|, path, path, pa, flags) == seq(4 - |was|, _ => flags);
    RightsJoin(was, seq(4 - |was|, _ => flags));
    RightsOfCopies(4 - |was|, flags);
    Associative(Rights(was), flags, 6);
  }

  predicate Has(w: bv64, right: bv64) { w & right == right }

  /** A right is there exactly if every entry on the walk gives it. */
  lemma {:induction false} RightsMeaning(trail: seq<bv64>, right: bv64)
    requires right == 2 || right == 4
    ensures Has(Rights(trail), right) <==> forall f | f in trail :: Has(f, right)
    decreases |trail|
  {
    hide Has, Both;
    if trail != [] {
      RightsMeaning(trail[1..], right);
      RightOfBoth(trail[0], Rights(trail[1..]), right);
      assert forall f | f in trail :: f == trail[0] || f in trail[1..];
    } else {
      RightOfBoth(right, 6, right);
    }
  }

  lemma RightOfBoth(a: bv64, b: bv64, right: bv64)
    requires right == 2 || right == 4
    ensures Has(Both(a & 6, b), right) <==> Has(a, right) && Has(b, right)
    ensures Has(6, right)
  {
  }
}
