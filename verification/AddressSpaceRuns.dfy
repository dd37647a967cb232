/** What holds over whole runs of address-space operations: lookups agree with the flat model,
    shared slots stay shared and empty ones stay apart, and tables cost exactly one frame per new
    prefix of a mapped path. */
module AddressSpaceRuns {
  import opened Prelude
  import opened PageEntry
  import opened PageTable
  import opened AddressSpace

  /** The page a root sees at a path, if any. */
  function PageAt(s: State, x: Frame, q: Path): Option<Frame>
    requires |q| > 0
  {
    match Walk(s.mem, x, q)
    case Found(p) => Some(p)
    case Missing(_) => None
  }

  /** Over every run, the lookup on any root is the lookup in the flat model. */
  lemma RunLookup(s: State, ops: seq<Op>, x: Frame, q: Path)
    requires Inv(s) && LegalRun(s, ops) && IsRoot(Exec(s, ops), x) && |q| == 4
    ensures WellFormed(ops)
    ensures PageAt(Exec(s, ops), x, q) == FlatLookup(FlatExec(FlatOf(s), ops), x, q)
  {
    hide Inv, FlatOf, FlatStep, FlatLookup, Step, Legal;
    RunRefines(s, ops);
    LookupRefines(Exec(s, ops), x, q);
  }

  /** Mapping inserts the page exactly if the root had none there, for the root and for the roots
      that share the slot, and changes no other page of any root. */
  lemma MapInserts(s: State, r: Frame, path: Path, pa: bv64, flags: bv64, x: Frame, q: Path)
    requires Inv(s) && Legal(s, Map(r, path, pa, flags)) && IsRoot(s, x) && |q| == 4
    ensures PageAt(Step(s, Map(r, path, pa, flags)), x, q)
         == if q == path && PageAt(s, x, q).None? && (x == r || SharesSlot(s.mem, x, r, q[0]))
            then Some(PageOf(pa)) else PageAt(s, x, q)
  {
    hide Present, TableOf, PageOf, FrameOf, Inv, MapPath, Walk;
    MapEffect(s, r, path, pa, flags, x, q);
  }

  /** Unmapping deletes the page, for the root and for the roots that share the slot, and changes no
      other page of any root. */
  lemma UnmapDeletes(s: State, r: Frame, path: Path, x: Frame, q: Path)
    requires Inv(s) && Legal(s, Unmap(r, path)) && IsRoot(s, x) && |q| == 4
    ensures PageAt(Step(s, Unmap(r, path)), x, q)
         == if q == path && (x == r || SharesSlot(s.mem, x, r, q[0])) then None else PageAt(s, x, q)
  {
    hide Present, TableOf, PageOf, FrameOf, Inv, UnmapPath, Walk;
    UnmapStart(s, r, path);
    UnmapEffect(s, r, path, x, q);
  }

  // ----- Ownership -----

  /** No step brings a frame in or loses one. */
  lemma StepKeepsFrames(s: State, op: Op)
    requires Inv(s) && Legal(s, op)
    ensures Step(s, op).mem.Keys == s.mem.Keys
  {
    hide Present, TableOf, PageOf, FrameOf, Walk, FreeOk, NodesOk, EdgesOk, Accounted, MapPath, UnmapPath, ForkTable;
    match op
    case Map(r, path, pa, flags) => MapKeepsInv(s, r, path, pa, flags);
    case Unmap(r, path) => UnmapStart(s, r, path); UnmapKeepsInv(s, r, path);
    case Fork(_, _, _) => NextIsUnused(s);
    case Take =>
    case Store(_, _, _) =>
    case Release(_) =>
  }

  /** After every run the frames of memory are the ones there were at the start, and each is exactly one
      of free, a root, a table below a root, or data. */
  lemma {:induction false} RunPartition(s: State, ops: seq<Op>, f: Frame)
    requires Inv(s) && LegalRun(s, ops)
    ensures var end := Exec(s, ops);
            && (f in s.mem <==> f in end.use || IsFree(end, f))
            && !(f in end.use && IsFree(end, f))
    decreases |ops|
  {
    if ops == [] {
      hide FrameOf, Aligned, NodesOk, EdgesOk;
      assert IsFree(s, f) ==> f in s.mem && f !in s.use;
    } else {
      hide Inv, Legal, Step, IsFree;
      StepKeepsInv(s, ops[0]);
      StepKeepsFrames(s, ops[0]);
      assert f in Step(s, ops[0]).mem <==> f in s.mem;
      RunPartition(Step(s, ops[0]), ops[1..], f);
    }
  }

  /** A table that two roots share sits in the same slot of both. */
  lemma SharedAtOneSlot(s: State, x: Frame, i: Index, y: Frame, j: Index, c: Frame)
    requires Inv(s) && IsRoot(s, x) && IsRoot(s, y) && Leads(s.mem, x, i, c) && Leads(s.mem, y, j, c)
    ensures i == j
  {
    hide Present, TableOf, FrameOf, FreeOk, NodesOk;
    StepIsDeeper(s, x, i, c);
    StepIsDeeper(s, y, j, c);
    assert s.use[c].path[0] == i && s.use[c].path[0] == j;
  }

  /** No table entry leads to the frame that is handed out next, so clearing it destroys nothing. */
  lemma NextIsUnreached(s: State, t: Frame, i: Index)
    requires Inv(s) && s.pos < |s.list| && IsTable(s, t) && Depth(s, t) < 3
    ensures !Leads(s.mem, t, i, NextFrame(s)) && t != NextFrame(s)
  {
    hide Present, TableOf, FrameOf, FreeOk, NodesOk;
    NextIsUnused(s);
    if Leads(s.mem, t, i, NextFrame(s)) {
      StepIsDeeper(s, t, i, NextFrame(s));
    }
  }

  // ----- Sharing -----

  lemma StepRoots(s: State, op: Op, x: Frame)
    requires Inv(s) && Legal(s, op) && IsRoot(s, x)
    ensures IsRoot(Step(s, op), x)
  {
    hide Present, TableOf, PageOf, FrameOf, Walk, FreeOk, NodesOk, EdgesOk, Accounted, MapPath, UnmapPath;
    match op
    case Map(r, path, pa, flags) => MapRoots(s, r, path, pa, flags, x);
    case Unmap(r, path) => UnmapOwners(s, r, path, x, 0);
    case Fork(source, k, _) => ForkOwners(s, source, k, x, 0);
    case Take => NextIsUnused(s);
    case Store(_, _, _) =>
    case Release(_) =>
  }

  /** A filled slot keeps its owner, and a slot that becomes filled is its root's own. */
  lemma StepOwner(s: State, op: Op, x: Frame, i: Index)
    requires Inv(s) && Legal(s, op) && IsRoot(s, x)
    ensures var s' := Step(s, op);
            && (Filled(s, x, i) ==> Filled(s', x, i) && OwnerOf(s', x, i) == OwnerOf(s, x, i))
            && (!Filled(s, x, i) && Filled(s', x, i) ==> OwnerOf(s', x, i) == x)
  {
    hide Inv, Present, TableOf, FrameOf, Step, OwnerOf;
    StepRefines(s, op);
    assert Filled(s, x, i) <==> (x, i) in FlatOf(s).owner;
    assert Filled(Step(s, op), x, i) <==> (x, i) in FlatOf(Step(s, op)).owner;
    if op.Fork? {
      ForkOwners(s, op.source, op.kernel, x, i);
    }
  }

  /** Roots that share a slot share it after every run, and see the same pages through it. */
  lemma {:induction false} RunKeepsSharing(s: State, ops: seq<Op>, x: Frame, y: Frame, q: Path)
    requires Inv(s) && LegalRun(s, ops) && IsRoot(s, x) && IsRoot(s, y) && |q| == 4
    requires SharesSlot(s.mem, x, y, q[0])
    ensures SharesSlot(Exec(s, ops).mem, x, y, q[0])
    ensures Walk(Exec(s, ops).mem, x, q) == Walk(Exec(s, ops).mem, y, q)
    decreases |ops|
  {
    hide Inv, Present, TableOf, FrameOf, Step, OwnerOf, Walk, Legal;
    if ops == [] {
      var c := TableOf(Read(s.mem, x, q[0]));
      WalkStep(s.mem, x, q, c);
      WalkStep(s.mem, y, q, c);
    } else {
      var s' := Step(s, ops[0]);
      StepKeepsInv(s, ops[0]);
      StepRoots(s, ops[0], x);
      StepRoots(s, ops[0], y);
      StepOwner(s, ops[0], x, q[0]);
      StepOwner(s, ops[0], y, q[0]);
      OwnerDecides(s, x, y, q[0]);
      OwnerDecides(s', x, y, q[0]);
      RunKeepsSharing(s', ops[1..], x, y, q);
    }
  }

  /** Slots that were present when a root was copied translate identically through the copy and its
      source after any later run through either of them. */
  lemma ForkSharesForever(s: State, source: Option<Frame>, k: Frame, ops: seq<Op>, q: Path)
    requires Inv(s) && Legal(s, Fork(source, k, NextFrame(s))) && LegalRun(NewRoot(s, source, k), ops) && |q| == 4
    requires q[0] < 256 ==> source.Some?
    requires Filled(s, if q[0] < 256 then source.value else k, q[0])
    ensures var from, end := if q[0] < 256 then source.value else k, Exec(NewRoot(s, source, k), ops);
            Walk(end.mem, NextFrame(s), q) == Walk(end.mem, from, q)
  {
    hide Inv, Present, TableOf, FrameOf, NewRoot, Walk, Exec, LegalRun;
    var s', n, from := NewRoot(s, source, k), NextFrame(s), if q[0] < 256 then source.value else k;
    NextIsUnused(s);
    ForkKeepsInv(s, source, k);
    ForkOwners(s, source, k, n, q[0]);
    ForkOwners(s, source, k, from, q[0]);
    ForkReads(s, source, k, n, q[0]);
    ForkReads(s, source, k, from, q[0]);
    assert Read(s'.mem, n, q[0]) == Read(s'.mem, from, q[0]);
    RunKeepsSharing(s', ops, n, from, q);
  }

  /** Slot i belongs to x, if it is filled at all. */
  ghost predicate OwnOrEmpty(s: State, x: Frame, i: Index) { Filled(s, x, i) ==> OwnerOf(s, x, i) == x }

  lemma {:induction false} RunKeepsApart(s: State, ops: seq<Op>, x: Frame, y: Frame, i: Index)
    requires Inv(s) && LegalRun(s, ops) && IsRoot(s, x) && IsRoot(s, y) && x != y
    requires OwnOrEmpty(s, x, i) && OwnOrEmpty(s, y, i)
    ensures !SharesSlot(Exec(s, ops).mem, x, y, i)
    decreases |ops|
  {
    hide Inv, Present, TableOf, FrameOf, Step, OwnerOf, Legal;
    if ops == [] {
      if SharesSlot(s.mem, x, y, i) {
        OwnerDecides(s, x, y, i);
      }
    } else {
      var s' := Step(s, ops[0]);
      StepKeepsInv(s, ops[0]);
      StepRoots(s, ops[0], x);
      StepRoots(s, ops[0], y);
      StepOwner(s, ops[0], x, i);
      StepOwner(s, ops[0], y, i);
      RunKeepsApart(s', ops[1..], x, y, i);
    }
  }

  /** A slot that was empty when a root was copied is never shared between the copy and its source,
      whatever the two do later. */
  lemma ForkStaysApart(s: State, source: Option<Frame>, k: Frame, ops: seq<Op>, x: Frame, i: Index)
    requires Inv(s) && Legal(s, Fork(source, k, NextFrame(s))) && LegalRun(NewRoot(s, source, k), ops)
    requires x == (if i >= 256 || source.None? then k else source.value) && !Filled(s, x, i)
    requires i < 256 ==> source.Some?
    ensures !SharesSlot(Exec(NewRoot(s, source, k), ops).mem, NextFrame(s), x, i)
  {
    hide Inv, Present, TableOf, FrameOf, NewRoot, Exec, LegalRun;
    var s', n := NewRoot(s, source, k), NextFrame(s);
    NextIsUnused(s);
    ForkKeepsInv(s, source, k);
    ForkOwners(s, source, k, n, i);
    ForkOwners(s, source, k, x, i);
    ForkReads(s, source, k, n, i);
    ForkReads(s, source, k, x, i);
    RunKeepsApart(s', ops, n, x, i);
  }

  // ----- What tables cost -----

  /** How many levels are still missing on the way to a page. */
  function Level(l: Lookup): nat { if l.Missing? then l.level else 0 }

  ghost predicate OnlyMaps(r: Frame, ops: seq<Op>) {
    forall op | op in ops :: (op.Map? || op.Unmap?) && op.root == r && |op.path| == 4
  }

  /** The first n indices of the mapped paths for which there is no table yet at that depth. */
  ghost function NewPrefixes(s: State, r: Frame, ops: seq<Op>, n: nat): set<Path>
    requires OnlyMaps(r, ops) && n <= 4
  {
    set op | op in ops && op.Map? && Level(Walk(s.mem, r, op.path)) > 4 - n :: op.path[..n]
  }

  /** Whether there is a table at depth n on the way along a path depends on n indices only. */
  lemma {:induction false} LevelOfPrefix(mem: map<Frame, Table>, t: Frame, p: Path, q: Path, n: nat)
    requires |p| == |q| && 0 < n <= |p| && p[..n] == q[..n]
    ensures Level(Walk(mem, t, p)) > |p| - n <==> Level(Walk(mem, t, q)) > |q| - n
    decreases n
  {
    hide Present, TableOf, PageOf;
    assert p[0] == p[..n][0] && q[0] == q[..n][0];
    if |p| > 1 && Present(Read(mem, t, p[0])) {
      var c := TableOf(Read(mem, t, p[0]));
      WalkLevel(mem, c, p[1..]);
      WalkLevel(mem, c, q[1..]);
      if n > 1 {
        assert p[1..][..n - 1] == p[..n][1..] && q[1..][..n - 1] == q[..n][1..];
        LevelOfPrefix(mem, c, p[1..], q[1..], n - 1);
      }
    }
  }

  lemma {:induction false} CommonIsPrefix(p: Path, q: Path, n: nat)
    requires n <= |p| && n <= |q|
    ensures Common(p, q) >= n <==> p[..n] == q[..n]
    decreases n
  {
    if n > 0 {
      assert p[..n] == [p[0]] + p[1..][..n - 1] && q[..n] == [q[0]] + q[1..][..n - 1];
      if p[0] == q[0] {
        CommonIsPrefix(p[1..], q[1..], n - 1);
      } else {
        assert p[..n][0] != q[..n][0];
      }
    }
  }

  lemma StepLevel(s: State, op: Op, r: Frame, q: Path, n: nat)
    requires Inv(s) && Legal(s, op) && OnlyMaps(r, [op]) && |q| == 4 && 1 <= n <= 3
    ensures Level(Walk(Step(s, op).mem, r, q)) > 4 - n
       <==> Level(Walk(s.mem, r, q)) > 4 - n && !(op.Map? && op.path[..n] == q[..n])
  {
    hide Present, TableOf, PageOf, FrameOf, Inv, MapPath, UnmapPath, Walk;
    assert op in [op];
    if op.Map? {
      MapEffect(s, r, op.path, op.pa, op.flags, r, q);
      CommonIsPrefix(op.path, q, n);
    } else {
      UnmapStart(s, r, op.path);
      UnmapEffect(s, r, op.path, r, q);
    }
  }

  lemma StepNewPrefixes(s: State, op: Op, r: Frame, ops: seq<Op>, n: nat)
    requires Inv(s) && Legal(s, op) && OnlyMaps(r, [op] + ops) && 1 <= n <= 3
    ensures OnlyMaps(r, [op]) && OnlyMaps(r, ops)
    ensures NewPrefixes(Step(s, op), r, ops, n)
         == NewPrefixes(s, r, [op] + ops, n) - (if op.Map? then {op.path[..n]} else {})
    ensures op.Map? ==> (op.path[..n] in NewPrefixes(s, r, [op] + ops, n) <==> Level(Walk(s.mem, r, op.path)) > 4 - n)
  {
    hide Inv, Legal, Step, Walk;
    assert op in [op] + ops && forall o | o in ops :: o in [op] + ops;
    var all, rest := NewPrefixes(s, r, [op] + ops, n), NewPrefixes(Step(s, op), r, ops, n);
    forall o | o in [op] + ops
      ensures Level(Walk(Step(s, op).mem, r, o.path)) > 4 - n
         <==> Level(Walk(s.mem, r, o.path)) > 4 - n && !(op.Map? && op.path[..n] == o.path[..n])
      ensures op.Map? && o.path[..n] == op.path[..n] ==>
                (Level(Walk(s.mem, r, o.path)) > 4 - n <==> Level(Walk(s.mem, r, op.path)) > 4 - n)
    {
      StepLevel(s, op, r, o.path, n);
      if op.Map? && o.path[..n] == op.path[..n] {
        LevelOfPrefix(s.mem, r, o.path, op.path, n);
      }
    }
    if op.Map? && op.path[..n] in all {
      var o :| o in [op] + ops && o.Map? && Level(Walk(s.mem, r, o.path)) > 4 - n && op.path[..n] == o.path[..n];
    }
    forall p: Path ensures p in rest <==> p in all && !(op.Map? && p == op.path[..n]) {
      if p in all && !(op.Map? && p == op.path[..n]) {
        var o :| o in [op] + ops && o.Map? && Level(Walk(s.mem, r, o.path)) > 4 - n && p == o.path[..n];
        assert o in ops;
      }
    }
  }

  lemma StepCounts(s: State, op: Op, r: Frame, ops: seq<Op>, n: nat)
    requires Inv(s) && Legal(s, op) && OnlyMaps(r, [op] + ops) && 1 <= n <= 3
    ensures op in [op] + ops && OnlyMaps(r, ops)
    ensures |NewPrefixes(s, r, [op] + ops, n)|
         == |NewPrefixes(Step(s, op), r, ops, n)|
            + if op.Map? && Level(Walk(s.mem, r, op.path)) > 4 - n then 1 else 0
  {
    hide Inv, Legal, Step, Walk, NewPrefixes;
    StepNewPrefixes(s, op, r, ops, n);
  }

  lemma StepCost(s: State, op: Op, r: Frame)
    requires Inv(s) && Legal(s, op) && OnlyMaps(r, [op])
    ensures Step(s, op).pos == s.pos + if op.Map? then FramesFor(Walk(s.mem, r, op.path)) else 0
    ensures op in [op] && Level(Walk(s.mem, r, op.path)) <= 4
  {
    hide Present, TableOf, PageOf, FrameOf, FreeOk, NodesOk, EdgesOk, Accounted, MapPath, UnmapPath, Walk;
    assert op in [op];
    WalkLevel(s.mem, r, op.path);
    if op.Map? {
      MapKeepsInv(s, r, op.path, op.pa, op.flags);
    } else {
      UnmapStart(s, r, op.path);
      UnmapKeepsInv(s, r, op.path);
    }
  }

  /** A run of maps and unmaps through one root takes exactly one frame for every prefix, at the top
      three levels, of a mapped path that had no table yet.  Unmaps and repeated maps take none. */
  lemma {:induction false} RunCost(s: State, r: Frame, ops: seq<Op>)
    requires Inv(s) && LegalRun(s, ops) && OnlyMaps(r, ops)
    ensures Exec(s, ops).pos
         == s.pos + |NewPrefixes(s, r, ops, 1)| + |NewPrefixes(s, r, ops, 2)| + |NewPrefixes(s, r, ops, 3)|
    decreases |ops|
  {
    hide Inv, Legal, Walk, Step;
    if ops == [] {
    } else {
      hide NewPrefixes;
      var op, s' := ops[0], Step(s, ops[0]);
      assert ops == [op] + ops[1..];
      StepKeepsInv(s, op);
      StepCounts(s, op, r, ops[1..], 1);
      StepCounts(s, op, r, ops[1..], 2);
      StepCounts(s, op, r, ops[1..], 3);
      StepCost(s, op, r);
      RunCost(s', r, ops[1..]);
    }
  }
}
