/** KernelLoadElfExecutable on top of the page tables: map each segment's pages, copy the file's bytes
    through the translation, and read them back.  Virtual addresses are numbers here; PathsAgree relates
    their pages to the indices that PageEntry.PathOf cuts from a 64-bit address. */
module ElfLoader {
  import opened Prelude
  import opened PageEntry
  import opened PageTable
  import opened AddressSpace
  import opened AddressSpaceRuns
  import opened AccessRights
  import opened ElfFormat

  /** Page numbers of 48-bit addresses. */
  type PageNumber = n: int | 0 <= n < 0x10_0000_0000

  datatype Outcome = NoFile | NotElf | PageFault(segment: nat) | Entry(address: nat)

  function PathOfPage(n: PageNumber): (p: Path)
    ensures |p| == 4
  {
    var pages, tables := n / 512, n / 512 / 512;
    [tables / 512, tables % 512, pages % 512, n % 512]
  }

  lemma PathOfPageInjective(n: PageNumber, m: PageNumber)
    requires PathOfPage(n) == PathOfPage(m)
    ensures n == m
  {
    var p, q := PathOfPage(n), PathOfPage(m);
    assert p[0] == q[0] && p[1] == q[1] && p[2] == q[2] && p[3] == q[3];
    assert n / 512 / 512 == m / 512 / 512;
    assert n / 512 == m / 512;
  }

  lemma PathOfDigits(n: PageNumber, p: Index, q: Index, r: Index, t: Index)
    requires n == ((p * 512 + q) * 512 + r) * 512 + t
    ensures PathOfPage(n) == [p, q, r, t]
  {
    assert n / 512 == (p * 512 + q) * 512 + r;
    assert n / 512 / 512 == p * 512 + q;
  }

  /** A page number is cut into the indices that the shifts and masks cut from the address. */
  lemma PathsAgree(va: bv64)
    ensures FrameOf(PageEntry.PageNumber(va)) / 0x1000 < 0x10_0000_0000
    ensures PathOfPage(FrameOf(PageEntry.PageNumber(va)) / 0x1000) == PathOf(va)
  {
    hide Slot, PageEntry.PageNumber, PathOfPage, FrameOf;
    PageNumberValue(va);
    var p, q, r, t := Slot(va >> 39), Slot(va >> 30), Slot(va >> 21), Slot(va >> 12);
    DigitsCut(FrameOf(PageEntry.PageNumber(va)), p, q, r, t);
  }

  lemma DigitsCut(f: Frame, p: Index, q: Index, r: Index, t: Index)
    requires f == 0x80_0000_0000 * p + 0x4000_0000 * q + 0x20_0000 * r + 0x1000 * t
    ensures f / 0x1000 < 0x10_0000_0000 && PathOfPage(f / 0x1000) == [p, q, r, t]
  {
    hide PathOfPage;
    assert f / 0x1000 == ((p * 512 + q) * 512 + r) * 512 + t;
    PathOfDigits(f / 0x1000, p, q, r, t);
  }

  /** The file holds its program headers and the bytes they point to. */
  predicate WellFormedFile(file: seq<Byte>) {
    HeaderFits(file) &&
    forall i | 0 <= i < SegmentCount(file) ::
      ProgramHeader(file, i) + 56 <= |file| &&
      InFile(SegmentAt(file, i), file)
  }

  // ----- Which pages the mapping loop reaches -----

  function FirstPage(g: Segment): nat { g.virtualAddress / 0x1000 }

  /** The loop maps at x = 0, 0x1000, ... up to the file size. */
  predicate Reaches(g: Segment, n: nat) {
    FirstPage(g) <= n <= FirstPage(g) + g.fileSize / 0x1000
  }

  function PageOfByte(g: Segment, i: nat): nat { (g.virtualAddress + i) / 0x1000 }

  ghost predicate Covered(g: Segment) {
    forall i | 0 <= i < g.fileSize :: Reaches(g, PageOfByte(g, i))
  }

  /** The offset of the first byte in its page and the size beyond whole pages fit in one page together. */
  predicate FitsPages(g: Segment) { g.virtualAddress % 0x1000 + g.fileSize % 0x1000 <= 0x1000 }

  /** The mapping loop covers every byte of the segment exactly when the segment fits its pages. */
  lemma Coverage(g: Segment)
    ensures Covered(g) <==> FitsPages(g)
  {
    if !FitsPages(g) {
      assert !Reaches(g, PageOfByte(g, g.fileSize - 1));
    } else {
      forall i | 0 <= i < g.fileSize ensures Reaches(g, PageOfByte(g, i)) {
        assert PageOfByte(g, i) <= PageOfByte(g, g.fileSize - 1);
      }
    }
  }

  /** Two bytes that lie on both sides of a page border: the loop maps the first page only. */
  lemma SplitSegmentFaults(fileOffset: nat)
    ensures var g := Segment(fileOffset, 0x1FFF, 2);
            !FitsPages(g) && Reaches(g, PageOfByte(g, 0)) && !Reaches(g, PageOfByte(g, 1))
  {
  }

  // ----- The address space while loading -----

  /** The frame behind a page of the address space. */
  function FrameOfPage(s: State, root: Frame, n: PageNumber): Option<Frame> {
    PageAt(s, root, PathOfPage(n))
  }

  /** Since s0 no page was lost or moved, and the pages that were added are data frames of their own
      that were not in use at s0; no right on the way to a page was taken away or given. */
  ghost predicate Private(s0: State, s: State, root: Frame) {
    && (forall n: PageNumber | FrameOfPage(s0, root, n).Some? :: FrameOfPage(s, root, n) == FrameOfPage(s0, root, n))
    && (forall n: PageNumber | Appeared(s0, s, root, n) ::
          var f := FrameOfPage(s, root, n).value; f in s.use && s.use[f].Data? && f !in s0.use)
    && (forall n: PageNumber, m: PageNumber | Appeared(s0, s, root, n) && Appeared(s0, s, root, m) && n != m ::
          FrameOfPage(s, root, n) != FrameOfPage(s, root, m))
    && SameRights(s0, s, root)
  }

  ghost predicate Appeared(s0: State, s: State, root: Frame, n: PageNumber) {
    FrameOfPage(s0, root, n).None? && FrameOfPage(s, root, n).Some?
  }

  /** One turn of the mapping loop: take a frame, then map it. */
  function MapFresh(s: State, root: Frame, n: PageNumber): State {
    MapPath(TakeFrame(s), root, PathOfPage(n), NextAddress(s), 7)
  }

  lemma MapFreshEffect(s: State, root: Frame, n: PageNumber, m: PageNumber)
    requires Inv(s) && IsRoot(s, root) && s.pos + 4 <= |s.list|
    ensures var s' := MapFresh(s, root, n);
            && Inv(s') && IsRoot(s', root) && s'.list == s.list && s.pos < s'.pos <= s.pos + 4
            && (forall f | f in s.use :: f in s'.use && s'.use[f] == s.use[f])
            && NextFrame(s) !in s.use && NextFrame(s) in s'.use && s'.use[NextFrame(s)].Data?
            && FrameOfPage(s', root, m)
               == if m == n && FrameOfPage(s, root, n).None? then Some(NextFrame(s)) else FrameOfPage(s, root, m)
  {
    hide Inv, Walk, MapPath, PathOfPage;
    var s1, path, a := TakeFrame(s), PathOfPage(n), NextAddress(s);
    NextIsUnused(s);
    TakeKeepsInv(s);
    FreshMayMap(s, root, path);
    MapKeepsInv(s1, root, path, a, 7);
    MapRoots(s1, root, path, a, 7, root);
    MapInserts(s1, root, path, a, 7, root, PathOfPage(m));
    FreshPage(s);
    if path == PathOfPage(m) {
      PathOfPageInjective(n, m);
    }
  }

  /** No page has more or fewer rights than the tables on its way allowed before. */
  ghost predicate SameRights(s0: State, s: State, root: Frame) {
    forall n: PageNumber :: RightsOf(s, root, n) == RightsOf(s0, root, n)
  }

  /** The rights that the entries on the way to a page give. */
  function RightsOf(s: State, root: Frame, n: PageNumber): bv64 { Rights(Trail(s.mem, root, PathOfPage(n))) }

  lemma MapFreshRights(s: State, root: Frame, n: PageNumber, m: PageNumber)
    requires Inv(s) && IsRoot(s, root) && s.pos + 4 <= |s.list|
    ensures RightsOf(MapFresh(s, root, n), root, m) == RightsOf(s, root, m)
  {
    hide Inv, Walk, MapPath, PathOfPage, Trail, Rights, Flags, FrameOf, Aligned;
    var s1, path, q, a := TakeFrame(s), PathOfPage(n), PathOfPage(m), NextAddress(s);
    NextIsUnused(s);
    FreshMayMap(s, root, path);
    MapTrail(s1, root, path, a, 7, root, q);
    var was := Trail(s.mem, root, q);
    NextIsAligned(s);
    EntryCarries(a, 7);
    assert 0 | 7 == 7 as bv64;
    var more := Added(|was|, path, q, a, 7);
    assert more == seq(|more|, _ => 7);
    FullEntries(was, |more|);
  }

  lemma NextIsAligned(s: State)
    requires Inv(s) && s.pos < |s.list|
    ensures Aligned(NextAddress(s))
  {
    hide Aligned, FrameOf, NodesOk, EdgesOk;
  }

  lemma FreshPage(s: State)
    requires Inv(s) && s.pos < |s.list|
    ensures PageOf(NextAddress(s)) == NextFrame(s)
  {
    hide NodesOk, EdgesOk, Accounted, FrameOf, Aligned;
    hide PageAddress;
    AlignedAddress(NextAddress(s));
  }

  lemma FreshMayMap(s: State, root: Frame, path: Path)
    requires Inv(s) && IsRoot(s, root) && s.pos + 4 <= |s.list| && |path| == 4
    ensures Inv(TakeFrame(s)) && Legal(TakeFrame(s), Map(root, path, NextAddress(s), 7))
    ensures FramesFor(Walk(s.mem, root, path)) <= 3
  {
    hide Inv, Walk, FrameOf;
    NextIsUnused(s);
    TakeKeepsInv(s);
    WalkLevel(s.mem, root, path);
  }

  /** Room for every frame the mapping loop of a segment may take. */
  function RoomFor(g: Segment): nat { 4 * (g.fileSize / 0x1000 + 1) }

  predicate InAddressSpace(g: Segment) { g.virtualAddress + g.fileSize + 0x1000 <= 0x1_0000_0000_0000 }

  class Loader {
    var space: State
    var bytes: map<(Frame, int), Byte>
    const root: Frame

    ghost predicate Valid()
      reads `space
    {
      Inv(space) && IsRoot(space, root)
    }

    constructor (space: State, root: Frame)
      requires Inv(space) && IsRoot(space, root)
      ensures Valid() && this.space == space && this.root == root && bytes == map[]
    {
      this.space, this.root, bytes := space, root, map[];
    }

    /** The byte a program reads at an address, if the page is there and was written. */
    function ReadByte(address: nat): Option<Byte>
      requires address < 0x1_0000_0000_0000
      reads this
    {
      match FrameOfPage(space, root, address / 0x1000)
      case None => None
      case Some(f) => if (f, address % 0x1000) in bytes then Some(bytes[(f, address % 0x1000)]) else None
    }

    method MapSegment(g: Segment, ghost s0: State)
      requires Valid() && InAddressSpace(g) && space.pos + RoomFor(g) <= |space.list|
      requires Private(s0, space, root) && (forall f | f in s0.use :: f in space.use)
      modifies `space
      ensures Valid() && Private(s0, space, root) && (forall f | f in s0.use :: f in space.use)
      ensures space.list == old(space).list && space.pos <= old(space).pos + RoomFor(g)
      ensures forall n: PageNumber ::
                FrameOfPage(space, root, n).Some? <==> FrameOfPage(old(space), root, n).Some? || Reaches(g, n)
      ensures forall n: PageNumber | FrameOfPage(old(space), root, n).Some? ::
                FrameOfPage(space, root, n) == FrameOfPage(old(space), root, n)
    {
      hide Inv, FrameOfPage;
      var x := 0;
      while x <= g.fileSize
        invariant x % 0x1000 == 0 && x <= g.fileSize + 0x1000
        invariant Valid() && Private(s0, space, root) && (forall f | f in s0.use :: f in space.use)
        invariant space.list == old(space).list && space.pos <= old(space).pos + x / 0x1000 * 4
        invariant forall n: PageNumber ::
                    FrameOfPage(space, root, n).Some? <==>
                      FrameOfPage(old(space), root, n).Some? || FirstPage(g) <= n < FirstPage(g) + x / 0x1000
        invariant forall n: PageNumber | FrameOfPage(old(space), root, n).Some? ::
                    FrameOfPage(space, root, n) == FrameOfPage(old(space), root, n)
      {
        var n := (g.virtualAddress + x) / 0x1000;
        assert n == FirstPage(g) + x / 0x1000;
        MapFreshPrivate(s0, space, root, n);
        space := MapFresh(space, root, n);
        x := x + 0x1000;
      }
    }

    /** Byte i of a segment reads back as the file's byte. */
    predicate Holds(g: Segment, file: seq<Byte>, i: nat)
      requires InFile(g, file) && i < g.fileSize
      reads this
    {
      ReadByte(g.virtualAddress + i) == Some(file[g.fileOffset + i])
    }

    ghost predicate Loaded(g: Segment, file: seq<Byte>)
      requires InFile(g, file)
      reads this
    {
      forall i | 0 <= i < g.fileSize :: Holds(g, file, i)
    }

    /** One byte stored through the translation; an address whose page is absent faults. */
    method StoreByte(address: nat, b: Byte, ghost s0: State) returns (ok: bool)
      requires Valid() && Private(s0, space, root)
      requires address < 0x1_0000_0000_0000 && FrameOfPage(s0, root, address / 0x1000).None?
      modifies `bytes
      ensures ok <==> FrameOfPage(space, root, address / 0x1000).Some?
      ensures ok ==> ReadByte(address) == Some(b)
      ensures !ok ==> bytes == old(bytes)
      ensures forall u: nat | u < 0x1_0000_0000_0000 && u != address && FrameOfPage(s0, root, u / 0x1000).None? ::
                ReadByte(u) == old(ReadByte(u))
    {
      hide Inv, FrameOfPage;
      var f := FrameOfPage(space, root, address / 0x1000);
      if f.None? {
        return false;
      }
      assert f.value in space.use && space.use[f.value].Data?;
      bytes := bytes[(f.value, address % 0x1000) := b];
      return true;
    }

    method CopySegment(g: Segment, file: seq<Byte>, ghost s0: State, ghost done: seq<Segment>) returns (ok: bool)
      requires Valid() && Private(s0, space, root) && InFile(g, file) && Unmapped(s0, root, g)
      requires forall d | d in done :: InFile(d, file) && Unmapped(s0, root, d) && Apart(g, d) && Loaded(d, file)
      modifies `bytes
      ensures ok <==> forall i | 0 <= i < g.fileSize :: FrameOfPage(space, root, PageOfByte(g, i)).Some?
      ensures ok ==> Loaded(g, file) && forall d | d in done :: Loaded(d, file)
    {
      hide Inv, FrameOfPage;
      var i := 0;
      while i < g.fileSize
        invariant 0 <= i <= g.fileSize
        invariant forall j | 0 <= j < i :: FrameOfPage(space, root, PageOfByte(g, j)).Some?
        invariant forall j | 0 <= j < i :: Holds(g, file, j)
        invariant forall d | d in done :: Loaded(d, file)
      {
        assert FrameOfPage(s0, root, PageOfByte(g, i)).None?;
        label Before:
        var stored := StoreByte(g.virtualAddress + i, file[g.fileOffset + i], s0);
        if !stored {
          assert !FrameOfPage(space, root, PageOfByte(g, i)).Some?;
          return false;
        }
        forall j | 0 <= j < i ensures Holds(g, file, j) {
          assert old@Before(Holds(g, file, j)) && FrameOfPage(s0, root, PageOfByte(g, j)).None?;
          assert ReadByte(g.virtualAddress + j) == old@Before(ReadByte(g.virtualAddress + j));
        }
        forall d, j | d in done && 0 <= j < d.fileSize ensures Holds(d, file, j) {
          assert old@Before(Holds(d, file, j)) && FrameOfPage(s0, root, PageOfByte(d, j)).None?;
          assert ReadByte(d.virtualAddress + j) == old@Before(ReadByte(d.virtualAddress + j));
        }
        i := i + 1;
      }
      return true;
    }

    /** The state after the first k segments, started from s0. */
    ghost predicate Progress(file: seq<Byte>, s0: State, k: nat)
      requires WellFormedFile(file) && k <= SegmentCount(file)
      reads this
    {
      && Valid() && Private(s0, space, root) && (forall f | f in s0.use :: f in space.use)
      && space.list == s0.list && space.pos <= s0.pos + RoomUpTo(file, k)
      && (forall j | 0 <= j < k :: Loaded(SegmentAt(file, j), file))
      && (forall n: PageNumber ::
            FrameOfPage(space, root, n).Some? <==> FrameOfPage(s0, root, n).Some? || ReachedUpTo(file, k, n))
      && AllReached(file, k)
    }

    /** Mapping the pages of segment k loses no byte of the earlier segments. */
    method MapNext(file: seq<Byte>, k: nat, ghost s0: State)
      requires Valid() && WellFormedFile(file) && k < SegmentCount(file)
      requires space.pos + RoomFor(SegmentAt(file, k)) <= |space.list|
      requires Private(s0, space, root) && (forall f | f in s0.use :: f in space.use)
      requires forall j | 0 <= j < k :: Loaded(SegmentAt(file, j), file)
      modifies `space
      ensures Valid() && Private(s0, space, root) && (forall f | f in s0.use :: f in space.use)
      ensures space.list == old(space).list && space.pos <= old(space).pos + RoomFor(SegmentAt(file, k))
      ensures forall n: PageNumber ::
                FrameOfPage(space, root, n).Some? <==>
                  FrameOfPage(old(space), root, n).Some? || Reaches(SegmentAt(file, k), n)
      ensures forall j | 0 <= j < k :: Loaded(SegmentAt(file, j), file)
    {
      hide Valid, FrameOfPage, LittleEndian, ProgramHeader, SegmentAt, Private, Reaches;
      MapSegment(SegmentAt(file, k), s0);
      forall j, i | 0 <= j < k && 0 <= i < SegmentAt(file, j).fileSize ensures Holds(SegmentAt(file, j), file, i) {
        assert old(Holds(SegmentAt(file, j), file, i));
      }
    }

    /** The body of the loader's loop: map the pages of segment k, then copy its bytes. */
    method LoadSegment(file: seq<Byte>, k: nat, ghost s0: State) returns (ok: bool)
      requires Loadable(file, s0, root) && k < SegmentCount(file) && Progress(file, s0, k)
      modifies this
      ensures Valid()
      ensures if ok then Progress(file, s0, k + 1) else !ReachedByTurn(file, k)
    {
      hide Valid, FrameOfPage, LittleEndian, ProgramHeader, SegmentAt, Private, Reaches, Loaded, Holds, Unmapped,
           Apart, InFile;
      var g := SegmentAt(file, k);
      RoomGrows(file, k);
      SegmentFits(file, k);
      MapNext(file, k, s0);
      ReachedStep(file, k);
      ghost var done := seq(k, j requires 0 <= j < k => SegmentAt(file, j));
      ok := CopySegment(g, file, s0, done);
      BytesReached(file, k, s0);
      forall j | 0 <= j < k + 1 && ok ensures Loaded(SegmentAt(file, j), file) {
        assert j < k ==> done[j] in done;
      }
    }

    lemma BytesReached(file: seq<Byte>, k: nat, s0: State)
      requires WellFormedFile(file) && k < SegmentCount(file) && InFile(SegmentAt(file, k), file)
      requires Unmapped(s0, root, SegmentAt(file, k))
      requires forall n: PageNumber ::
                 FrameOfPage(space, root, n).Some? <==> FrameOfPage(s0, root, n).Some? || ReachedUpTo(file, k + 1, n)
      ensures (forall i | 0 <= i < SegmentAt(file, k).fileSize ::
                FrameOfPage(space, root, PageOfByte(SegmentAt(file, k), i)).Some?)
         <==> ReachedByTurn(file, k)
    {
      hide FrameOfPage, LittleEndian, ProgramHeader, SegmentAt, ReachedUpTo;
      var g := SegmentAt(file, k);
      forall i | 0 <= i < g.fileSize
        ensures FrameOfPage(space, root, PageOfByte(g, i)).Some? <==> ReachedUpTo(file, k + 1, PageOfByte(g, i))
      {
        assert FrameOfPage(s0, root, PageOfByte(g, i)).None?;
      }
    }

    lemma ProgressStarts(file: seq<Byte>)
      requires Valid() && WellFormedFile(file)
      ensures Progress(file, space, 0)
    {
      hide Inv, FrameOfPage, LittleEndian, ProgramHeader, SegmentAt, Reaches;
    }

    lemma ProgressEnds(file: seq<Byte>, s0: State)
      requires WellFormedFile(file) && Progress(file, s0, SegmentCount(file))
      ensures Valid() && AllReached(file, SegmentCount(file)) && SameRights(s0, space, root)
      ensures forall k | 0 <= k < SegmentCount(file) :: Loaded(SegmentAt(file, k), file)
    {
      hide Inv, FrameOfPage, LittleEndian, ProgramHeader, SegmentAt, Reaches;
    }

    /** KernelLoadElfExecutable. */
    method Load(fo: Option<seq<Byte>>) returns (r: Outcome)
      requires Valid()
      requires fo.Some? ==> |fo.value| > 0 && (fo.value[0] == 0x7F ==> Loadable(fo.value, space, root))
      modifies this
      ensures Valid()
      ensures r.NoFile? <==> fo.None?
      ensures r.NotElf? <==> fo.Some? && fo.value[0] != 0x7F
      ensures r.Entry? || r.PageFault? ==> fo.Some? && fo.value[0] == 0x7F
      ensures r.Entry? <==> fo.Some? && fo.value[0] == 0x7F && AllReached(fo.value, SegmentCount(fo.value))
      ensures r.Entry? ==>
        && r.address == EntryAddress(fo.value)
        && forall k | 0 <= k < SegmentCount(fo.value) :: Loaded(SegmentAt(fo.value, k), fo.value)
      ensures r.Entry? ==> SameRights(old(space), space, root)
      ensures r.PageFault? ==> r.segment < SegmentCount(fo.value) && !ReachedByTurn(fo.value, r.segment)
    {
      if fo.None? {
        return NoFile;
      }
      var file := fo.value;
      if file[0] != 0x7F {
        return NotElf;
      }
      hide Valid, Loadable, LittleEndian, EntryAddress, ProgramHeader, SegmentAt, Loaded, ReachedByTurn, AllReached,
           SegmentCount, Inv;
      r := LoadSegments(file);
    }

    /** The same for a file of which it is known what was written into it. */
    method LoadImage(file: seq<Byte>, ghost h: FileHeader, ghost ps: seq<Program>) returns (r: Outcome)
      requires Valid() && Describes(file, h, ps) && ImageFits(file, ps, space, root)
      modifies this
      ensures Valid() && (r.Entry? || r.PageFault?)
      ensures r.Entry? <==> forall k, i | 0 <= k < |ps| && 0 <= i < ps[k].fileSize :: PageReached(ps, k, i)
      ensures r.Entry? ==> r.address == h.entry && SameRights(old(space), space, root)
      ensures r.Entry? ==> forall k, i | 0 <= k < |ps| && 0 <= i < ps[k].fileSize :: HoldsByte(file, ps[k], i)
      ensures r.PageFault? ==>
                r.segment < |ps| && exists i | 0 <= i < ps[r.segment].fileSize :: !PageReached(ps, r.segment, i)
    {
      hide Inv, LittleEndian, EntryAddress, ProgramHeader, SegmentAt, SegmentCount, Describes, Unmapped, Loadable,
           ReachedByTurn, RoomOf, PageReached, SameRights;
      ReadsDescription(file, h, ps);
      DescribedLoadable(file, h, ps, space, root);
      DescribedReached(file, h, ps);
      LoadableIsWellFormed(file, space, root);
      r := Load(Some(file));
      if r.Entry? {
        forall k, i | 0 <= k < |ps| && 0 <= i < ps[k].fileSize
          ensures HoldsByte(file, ps[k], i)
        {
          SegmentFits(file, k);
          assert Loaded(SegmentAt(file, k), file);
          assert Holds(SegmentAt(file, k), file, i);
        }
      }
    }

    /** A program reads byte i of the described segment at the described address. */
    predicate HoldsByte(file: seq<Byte>, p: Program, i: nat)
      reads this
    {
      && p.fileOffset + i < |file| && p.virtualAddress + i < 0x1_0000_0000_0000
      && ReadByte(p.virtualAddress + i) == Some(file[p.fileOffset + i])
    }

    /** The loop over the program headers. */
    method LoadSegments(file: seq<Byte>) returns (r: Outcome)
      requires Valid() && Loadable(file, space, root)
      modifies this
      ensures Valid() && (r.Entry? || r.PageFault?) && (r.Entry? <==> AllReached(file, SegmentCount(file)))
      ensures r.Entry? ==> SameRights(old(space), space, root)
      ensures r.Entry? ==>
        && r.address == EntryAddress(file)
        && forall k | 0 <= k < SegmentCount(file) :: Loaded(SegmentAt(file, k), file)
      ensures r.PageFault? ==> r.segment < SegmentCount(file) && !ReachedByTurn(file, r.segment)
    {
      hide Valid, Progress, LittleEndian, ProgramHeader, SegmentAt, Loaded, ReachedByTurn;
      ghost var s0 := space;
      ProgressStarts(file);
      var k := 0;
      while k < SegmentCount(file)
        invariant 0 <= k <= SegmentCount(file)
        invariant Progress(file, s0, k)
      {
        var ok := LoadSegment(file, k, s0);
        if !ok {
          return PageFault(k);
        }
        k := k + 1;
      }
      ProgressEnds(file, s0);
      return Entry(EntryAddress(file));
    }
  }

  predicate InFile(g: Segment, file: seq<Byte>) {
    g.fileOffset + g.fileSize <= |file| && InAddressSpace(g)
  }

  /** No page that the segment's bytes lie in is mapped. */
  ghost predicate Unmapped(s: State, root: Frame, g: Segment)
    requires InAddressSpace(g)
  {
    && (forall i | 0 <= i < g.fileSize :: FrameOfPage(s, root, PageOfByte(g, i)).None?)
  }

  predicate Apart(g: Segment, h: Segment) {
    g.virtualAddress + g.fileSize <= h.virtualAddress || h.virtualAddress + h.fileSize <= g.virtualAddress
  }

  /** Frames the mapping loops of the first k segments may take. */
  function RoomUpTo(file: seq<Byte>, k: nat): nat
    requires HeaderFits(file) && forall i | 0 <= i < k :: ProgramHeader(file, i) + 56 <= |file|
  {
    if k == 0 then 0 else RoomUpTo(file, k - 1) + RoomFor(SegmentAt(file, k - 1))
  }

  /** One of the first k segments' mapping loops reaches page n. */
  ghost predicate ReachedUpTo(file: seq<Byte>, k: nat, n: nat)
    requires WellFormedFile(file) && k <= SegmentCount(file)
  {
    exists j | 0 <= j < k :: Reaches(SegmentAt(file, j), n)
  }

  /** When segment k is copied, each of its bytes has a page that some mapping loop has reached. */
  ghost predicate ReachedByTurn(file: seq<Byte>, k: nat)
    requires WellFormedFile(file) && k < SegmentCount(file)
  {
    var g := SegmentAt(file, k);
    forall i | 0 <= i < g.fileSize :: ReachedUpTo(file, k + 1, PageOfByte(g, i))
  }

  ghost predicate AllReached(file: seq<Byte>, n: nat)
    requires WellFormedFile(file) && n <= SegmentCount(file)
  {
    forall k | 0 <= k < n :: ReachedByTurn(file, k)
  }

  /** What the loader needs of a file: headers that fit, frames for its pages, segments that do not
      overlap and whose bytes lie in unmapped pages. */
  ghost predicate Loadable(file: seq<Byte>, s: State, root: Frame) {
    && WellFormedFile(file)
    && s.pos + RoomUpTo(file, SegmentCount(file)) <= |s.list|
    && (forall k | 0 <= k < SegmentCount(file) :: Unmapped(s, root, SegmentAt(file, k)))
    && (forall j, k | 0 <= j < k < SegmentCount(file) :: Apart(SegmentAt(file, k), SegmentAt(file, j)))
  }

  // ----- In terms of what was written into the file -----

  /** Frames the mapping loops may take. */
  function RoomOf(ps: seq<Program>): nat {
    if ps == [] then 0 else RoomOf(ps[..|ps| - 1]) + RoomFor(SegmentOf(ps[|ps| - 1]))
  }

  ghost predicate ImageFits(file: seq<Byte>, ps: seq<Program>, s: State, root: Frame) {
    && (forall i | 0 <= i < |ps| :: InFile(SegmentOf(ps[i]), file) && Unmapped(s, root, SegmentOf(ps[i])))
    && (forall i, j | 0 <= i < j < |ps| :: Apart(SegmentOf(ps[j]), SegmentOf(ps[i])))
    && s.pos + RoomOf(ps) <= |s.list|
  }

  /** The page of byte i of segment k is reached by the mapping loop of that segment or an earlier one. */
  ghost predicate PageReached(ps: seq<Program>, k: nat, i: nat)
    requires k < |ps|
  {
    exists j | 0 <= j <= k :: Reaches(SegmentOf(ps[j]), PageOfByte(SegmentOf(ps[k]), i))
  }

  lemma {:induction false} DescribedRoom(file: seq<Byte>, h: FileHeader, ps: seq<Program>, k: nat)
    requires Describes(file, h, ps) && k <= |ps|
    ensures HeaderFits(file) && forall i | 0 <= i < k :: ProgramHeader(file, i) + 56 <= |file|
    ensures RoomUpTo(file, k) == RoomOf(ps[..k])
    decreases k
  {
    hide LittleEndian, ProgramHeader, SegmentAt, Describes, SegmentOf, RoomFor;
    ReadsDescription(file, h, ps);
    if k > 0 {
      DescribedRoom(file, h, ps, k - 1);
      assert ps[..k][..k - 1] == ps[..k - 1];
    }
  }

  lemma DescribedLoadable(file: seq<Byte>, h: FileHeader, ps: seq<Program>, s: State, root: Frame)
    requires Describes(file, h, ps) && ImageFits(file, ps, s, root)
    ensures Loadable(file, s, root)
  {
    hide LittleEndian, ProgramHeader, SegmentAt, Describes, SegmentOf, InFile, Unmapped, Apart, RoomOf, SegmentCount;
    ReadsDescription(file, h, ps);
    DescribedRoom(file, h, ps, |ps|);
    assert ps[..|ps|] == ps;
  }

  lemma LoadableIsWellFormed(file: seq<Byte>, s: State, root: Frame)
    requires Loadable(file, s, root)
    ensures WellFormedFile(file)
  {
  }

  lemma DescribedReached(file: seq<Byte>, h: FileHeader, ps: seq<Program>)
    requires Describes(file, h, ps) && forall i | 0 <= i < |ps| :: InFile(SegmentOf(ps[i]), file)
    ensures WellFormedFile(file) && SegmentCount(file) == |ps|
    ensures forall k | 0 <= k < |ps| ::
              ReachedByTurn(file, k) <==> forall i | 0 <= i < ps[k].fileSize :: PageReached(ps, k, i)
  {
    hide LittleEndian, ProgramHeader, SegmentAt, Describes, Reaches, PageOfByte, InFile, SegmentCount;
    ReadsDescription(file, h, ps);
    forall k | 0 <= k < |ps|
      ensures ReachedByTurn(file, k) <==> forall i | 0 <= i < ps[k].fileSize :: PageReached(ps, k, i)
    {
      forall i | 0 <= i < ps[k].fileSize
        ensures ReachedUpTo(file, k + 1, PageOfByte(SegmentOf(ps[k]), i)) <==> PageReached(ps, k, i)
      {
      }
    }
  }

  lemma SegmentFits(file: seq<Byte>, k: nat)
    requires WellFormedFile(file) && k < SegmentCount(file)
    ensures InFile(SegmentAt(file, k), file) && InAddressSpace(SegmentAt(file, k))
    ensures forall j | 0 <= j < SegmentCount(file) :: InFile(SegmentAt(file, j), file)
  {
    hide LittleEndian, ProgramHeader, SegmentAt;
  }

  lemma {:induction false} RoomMonotone(file: seq<Byte>, k: nat, n: nat)
    requires WellFormedFile(file) && k <= n <= SegmentCount(file)
    ensures RoomUpTo(file, k) <= RoomUpTo(file, n)
    decreases n - k
  {
    hide LittleEndian, ProgramHeader, SegmentAt;
    if k < n {
      RoomMonotone(file, k, n - 1);
    }
  }

  lemma ReachedStep(file: seq<Byte>, k: nat)
    requires WellFormedFile(file) && k < SegmentCount(file)
    ensures forall n: PageNumber ::
              ReachedUpTo(file, k + 1, n) <==> ReachedUpTo(file, k, n) || Reaches(SegmentAt(file, k), n)
  {
    hide LittleEndian, ProgramHeader, SegmentAt, Reaches;
  }

  lemma RoomGrows(file: seq<Byte>, k: nat)
    requires WellFormedFile(file) && k < SegmentCount(file)
    ensures RoomUpTo(file, k) + RoomFor(SegmentAt(file, k)) == RoomUpTo(file, k + 1)
    ensures RoomUpTo(file, k + 1) <= RoomUpTo(file, SegmentCount(file))
  {
    RoomMonotone(file, k + 1, SegmentCount(file));
  }

  lemma MapFreshPrivate(s0: State, s: State, root: Frame, n: PageNumber)
    requires Inv(s) && IsRoot(s, root) && s.pos + 4 <= |s.list|
    requires Private(s0, s, root) && (forall f | f in s0.use :: f in s.use)
    ensures var s' := MapFresh(s, root, n);
            && Inv(s') && IsRoot(s', root) && s'.list == s.list && s.pos < s'.pos <= s.pos + 4
            && Private(s0, s', root) && (forall f | f in s0.use :: f in s'.use)
            && (forall m: PageNumber :: FrameOfPage(s', root, m)
                  == if m == n && FrameOfPage(s, root, n).None? then Some(NextFrame(s)) else FrameOfPage(s, root, m))
  {
    hide Inv, FrameOfPage, MapFresh, FrameOf, RightsOf;
    var s' := MapFresh(s, root, n);
    MapFreshEffect(s, root, n, n);
    forall m: PageNumber
      ensures FrameOfPage(s', root, m)
           == if m == n && FrameOfPage(s, root, n).None? then Some(NextFrame(s)) else FrameOfPage(s, root, m)
    {
      MapFreshEffect(s, root, n, m);
    }
    forall m: PageNumber ensures RightsOf(s', root, m) == RightsOf(s0, root, m) {
      MapFreshRights(s, root, n, m);
    }
  }

  /** The loader cannot fault on a file all of whose segments fit the mapping loop; with one segment
      it faults exactly when the segment does not. */
  lemma WhenAllReached(file: seq<Byte>)
    requires WellFormedFile(file)
    ensures (forall k | 0 <= k < SegmentCount(file) :: FitsPages(SegmentAt(file, k))) ==>
              AllReached(file, SegmentCount(file))
    ensures SegmentCount(file) == 1 ==> (AllReached(file, 1) <==> FitsPages(SegmentAt(file, 0)))
  {
    hide LittleEndian, ProgramHeader, SegmentAt, Reaches;
    forall k | 0 <= k < SegmentCount(file) && FitsPages(SegmentAt(file, k)) ensures ReachedByTurn(file, k) {
      Coverage(SegmentAt(file, k));
    }
    if SegmentCount(file) == 1 && AllReached(file, 1) {
      var g := SegmentAt(file, 0);
      Coverage(g);
      assert ReachedByTurn(file, 0);
      forall i | 0 <= i < g.fileSize ensures Reaches(g, PageOfByte(g, i)) {
        assert ReachedUpTo(file, 1, PageOfByte(g, i));
      }
    }
  }

  /** A file whose one segment is such a pair of bytes faults, whatever else it holds. */
  lemma SplitFileFaults(file: seq<Byte>)
    requires WellFormedFile(file) && SegmentCount(file) == 1
    requires SegmentAt(file, 0).virtualAddress == 0x1FFF && SegmentAt(file, 0).fileSize == 2
    ensures !AllReached(file, 1)
  {
    hide LittleEndian, ProgramHeader, SegmentAt;
    SplitSegmentFaults(SegmentAt(file, 0).fileOffset);
    WhenAllReached(file);
  }
}
