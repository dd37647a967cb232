/** The rights of pages over runs of operations.  The flat model of AddressSpace is extended by the flags along every
    path from every root; the tables implement it, so the rights of a page follow from the operations alone. */
module AccessRightsRuns {
  import opened Prelude
  import opened PageEntry
  import opened PageTable
  import opened AddressSpace
  import opened AddressSpaceRuns
  import opened AccessRights
  import opened KernelHalf

  // ----- The flat model -----

  type Trails = imap<(Frame, Path), seq<bv64>>

  function Past(tr: Trails, e: (Frame, Path)): seq<bv64> { if e in tr then tr[e] else [] }

  /** What is mapped through root r at slot i is seen through root x: the slot of both has the same owner. */
  ghost predicate FlatSees(a: Flat, x: Frame, r: Frame, i: Index) {
    x == r || ((x, i) in a.owner && (r, i) in a.owner && a.owner[(x, i)] == a.owner[(r, i)])
  }

  ghost function FlatMapTrails(a: Flat, tr: Trails, r: Frame, path: Path, pa: bv64, flags: bv64): Trails
    requires |path| == 4
  {
    imap e: (Frame, Path) | e in tr ::
      if FlatSees(a, e.0, r, path[0]) then tr[e] + Added(|tr[e]|, path, e.1, pa, flags) else tr[e]
  }

  ghost function FlatUnmapTrails(a: Flat, tr: Trails, r: Frame, path: Path): Trails
    requires |path| == 4
  {
    imap e: (Frame, Path) | e in tr :: if FlatSees(a, e.0, r, path[0]) then Cleared(tr[e], path, e.1) else tr[e]
  }

  ghost function FlatForkTrails(tr: Trails, source: Option<Frame>, k: Frame, n: Frame): Trails {
    imap e: (Frame, Path) | e in tr || (e.0 == n && |e.1| == 4) ::
      if e.0 != n then Past(tr, e)
      else if |e.1| > 0 && e.1[0] >= 256 then Past(tr, (k, e.1))
      else if source.Some? then Past(tr, (source.value, e.1)) else []
  }

  ghost function FlatStepTrails(a: Flat, tr: Trails, op: Op): Trails
    requires op.Map? || op.Unmap? ==> |op.path| == 4
  {
    match op
    case Map(r, path, pa, flags) => FlatMapTrails(a, tr, r, path, pa, flags)
    case Unmap(r, path) => FlatUnmapTrails(a, tr, r, path)
    case Fork(source, k, n) => FlatForkTrails(tr, source, k, n)
    case _ => tr
  }

  ghost function FlatExecTrails(a: Flat, tr: Trails, ops: seq<Op>): Trails
    requires WellFormed(ops)
    decreases |ops|
  {
    if ops == [] then tr
    else
      assert ops[0] in ops;
      FlatExecTrails(FlatStep(a, ops[0]), FlatStepTrails(a, tr, ops[0]), ops[1..])
  }

  // ----- The tables implement it -----

  ghost function TrailsOf(s: State): Trails {
    imap e: (Frame, Path) | IsRoot(s, e.0) && |e.1| == 4 :: Trail(s.mem, e.0, e.1)
  }

  lemma SeesByOwner(s: State, x: Frame, r: Frame, i: Index)
    requires Inv(s) && IsRoot(s, x) && IsRoot(s, r)
    ensures Sees(s, x, r, i) <==> FlatSees(FlatOf(s), x, r, i)
  {
    hide Present, TableOf, FrameOf, Inv, OwnerOf, Read;
    assert (x, i) in FlatOf(s).owner <==> Filled(s, x, i);
    assert (r, i) in FlatOf(s).owner <==> Filled(s, r, i);
    if Filled(s, x, i) && Filled(s, r, i) {
      OwnerDecides(s, x, r, i);
    }
  }

  lemma MapTrailsRefine(s: State, r: Frame, path: Path, pa: bv64, flags: bv64)
    requires Inv(s) && Legal(s, Map(r, path, pa, flags))
    ensures TrailsOf(MapPath(s, r, path, pa, flags)) == FlatMapTrails(FlatOf(s), TrailsOf(s), r, path, pa, flags)
  {
    hide Inv, MapPath, FlatOf, FlatSees, Sees, CanMap, Added, Trail, IsRoot;
    var a, a' := TrailsOf(MapPath(s, r, path, pa, flags)), FlatMapTrails(FlatOf(s), TrailsOf(s), r, path, pa, flags);
    forall e: (Frame, Path)
      ensures e in a <==> e in a'
      ensures e in a' ==> a[e] == a'[e]
    {
      MapRoots(s, r, path, pa, flags, e.0);
      if IsRoot(s, e.0) && |e.1| == 4 {
        MapTrail(s, r, path, pa, flags, e.0, e.1);
        SeesByOwner(s, e.0, r, path[0]);
      }
    }
    assert a == a';
  }

  lemma UnmapTrailsRefine(s: State, r: Frame, path: Path)
    requires Inv(s) && Legal(s, Unmap(r, path))
    ensures TrailsOf(UnmapPath(s, r, path)) == FlatUnmapTrails(FlatOf(s), TrailsOf(s), r, path)
  {
    hide Inv, UnmapPath, FlatOf, FlatSees, Sees, Cleared, Trail, IsRoot;
    var a, a' := TrailsOf(UnmapPath(s, r, path)), FlatUnmapTrails(FlatOf(s), TrailsOf(s), r, path);
    UnmapStart(s, r, path);
    forall e: (Frame, Path)
      ensures e in a <==> e in a'
      ensures e in a' ==> a[e] == a'[e]
    {
      UnmapOwners(s, r, path, e.0, 0);
      if IsRoot(s, e.0) && |e.1| == 4 {
        UnmapTrail(s, r, path, e.0, e.1);
        SeesByOwner(s, e.0, r, path[0]);
      }
    }
    assert a == a';
  }

  lemma ForkTrailsRefine(s: State, source: Option<Frame>, k: Frame)
    requires Inv(s) && Legal(s, Fork(source, k, NextFrame(s)))
    ensures TrailsOf(NewRoot(s, source, k)) == FlatForkTrails(TrailsOf(s), source, k, NextFrame(s))
  {
    hide Inv, NewRoot, Trail, NextFrame;
    var a, a' := TrailsOf(NewRoot(s, source, k)), FlatForkTrails(TrailsOf(s), source, k, NextFrame(s));
    forall e: (Frame, Path)
      ensures e in a <==> e in a'
      ensures e in a' ==> a[e] == a'[e]
    {
      ForkOwners(s, source, k, e.0, 0);
      if IsRoot(NewRoot(s, source, k), e.0) && |e.1| == 4 {
        ForkTrail(s, source, k, e.0, e.1);
      }
    }
    assert a == a';
  }

  lemma QuietTrails(s: State, s': State)
    requires Inv(s) && Quiet(s, s')
    ensures TrailsOf(s') == TrailsOf(s)
  {
    hide Inv, Quiet, Trail, IsRoot;
    var a, a' := TrailsOf(s'), TrailsOf(s);
    forall e: (Frame, Path)
      ensures e in a <==> e in a'
      ensures e in a' ==> a[e] == a'[e]
    {
      QuietUse(s, s', e.0);
      if IsRoot(s, e.0) && |e.1| == 4 {
        QuietTrail(s, s', e.0, e.1);
      }
    }
    assert a == a';
  }

  lemma QuietTrail(s: State, s': State, x: Frame, q: Path)
    requires Inv(s) && Quiet(s, s') && IsRoot(s, x) && |q| == 4
    ensures Trail(s'.mem, x, q) == Trail(s.mem, x, q)
  {
    hide Inv, Trail, Read, IsRoot;
    RootIsTable(s, x);
    TrailFrame(s, s'.mem, x, q);
  }

  /** One step of the tables is one step of the flat model, rights included. */
  lemma StepTrailsRefine(s: State, op: Op)
    requires Inv(s) && Legal(s, op)
    ensures op.Map? || op.Unmap? ==> |op.path| == 4
    ensures TrailsOf(Step(s, op)) == FlatStepTrails(FlatOf(s), TrailsOf(s), op)
  {
    hide Inv, TrailsOf, FlatOf, FlatMapTrails, FlatUnmapTrails, FlatForkTrails;
    match op
    case Map(r, path, pa, flags) => MapTrailsRefine(s, r, path, pa, flags);
    case Unmap(r, path) => UnmapTrailsRefine(s, r, path);
    case Fork(source, k, _) => ForkTrailsRefine(s, source, k);
    case Take => NextIsUnused(s); QuietTrails(s, Step(s, op));
    case Store(_, _, _) => QuietTrails(s, Step(s, op));
    case Release(_) => QuietTrails(s, Step(s, op));
  }

  /** Over every run the flags that the walks pass are those of the flat model run alongside. */
  lemma {:induction false} RunTrails(s: State, ops: seq<Op>)
    requires Inv(s) && LegalRun(s, ops)
    ensures WellFormed(ops) && TrailsOf(Exec(s, ops)) == FlatExecTrails(FlatOf(s), TrailsOf(s), ops)
    decreases |ops|
  {
    hide Inv, TrailsOf, FlatOf, FlatStep, FlatStepTrails, Legal, Step;
    if ops != [] {
      StepKeepsInv(s, ops[0]);
      StepRefines(s, ops[0]);
      StepTrailsRefine(s, ops[0]);
      RunTrails(Step(s, ops[0]), ops[1..]);
      assert forall op | op in ops :: op == ops[0] || op in ops[1..];
    }
  }

  // ----- Single pages -----

  /** No step changes the flags along a walk that finds its page, but for an unmapping of that page. */
  lemma StepKeepsTrail(s: State, op: Op, x: Frame, q: Path)
    requires Inv(s) && Legal(s, op) && IsRoot(s, x) && |q| == 4 && |Trail(s.mem, x, q)| == 4
    requires op.Unmap? ==> op.path != q
    ensures Trail(Step(s, op).mem, x, q) == Trail(s.mem, x, q)
  {
    hide Inv, Trail, IsRoot, FlatOf, MapPath, UnmapPath, NewRoot, FlatSees, NextFrame, CanMap;
    StepRoots(s, op, x);
    StepTrailsRefine(s, op);
    assert (x, q) in TrailsOf(s) && (x, q) in TrailsOf(Step(s, op));
    if op.Fork? {
      NextIsUnused(s);
      RootIsTable(s, x);
    }
  }

  /** Over every run that does not unmap it, a page keeps the flags along its walk. */
  lemma {:induction false} RunKeepsTrail(s: State, ops: seq<Op>, x: Frame, q: Path)
    requires Inv(s) && LegalRun(s, ops) && IsRoot(s, x) && |q| == 4 && |Trail(s.mem, x, q)| == 4
    requires NeverUnmapped(q, ops)
    ensures Trail(Exec(s, ops).mem, x, q) == Trail(s.mem, x, q)
    decreases |ops|
  {
    hide Inv, Legal, Step, IsRoot, Trail;
    if ops != [] {
      assert ops[0] in ops;
      StepKeepsInv(s, ops[0]);
      StepRoots(s, ops[0], x);
      StepKeepsTrail(s, ops[0], x, q);
      RunKeepsTrail(Step(s, ops[0]), ops[1..], x, q);
    }
  }

  /** A page mapped for user access, or not, keeps exactly that right in every later run that does not unmap it:
      what its flags allow and the tables that were there already did not forbid. */
  lemma MappedRightsStay(s: State, r: Frame, path: Path, pa: bv64, flags: bv64, ops: seq<Op>)
    requires Inv(s) && Legal(s, Map(r, path, pa, flags)) && Walk(s.mem, r, path).Missing? && Aligned(pa)
    requires LegalRun(Step(s, Map(r, path, pa, flags)), ops) && NeverUnmapped(path, ops)
    ensures var end := Exec(Step(s, Map(r, path, pa, flags)), ops);
            && Rights(Trail(end.mem, r, path)) == Rights(Trail(s.mem, r, path)) & flags & 6
            && PageAt(end, r, path) == Some(FrameOf(pa))
  {
    hide Inv, Trail, IsRoot, MapPath, Exec, LegalRun, Rights, Walk, FrameOf, Aligned, PageOf, EntryFlags;
    var s' := Step(s, Map(r, path, pa, flags));
    MapGivesRights(s, r, path, pa, flags, r);
    StepKeepsInv(s, Map(r, path, pa, flags));
    StepRoots(s, Map(r, path, pa, flags), r);
    RunKeepsTrail(s', ops, r, path);
    MapInserts(s, r, path, pa, flags, r, path);
    AlignedPage(pa);
    PageStays(s', ops, r, path);
  }
}
