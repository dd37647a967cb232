/** The size-class allocator without `free`: one bin per power of two, each carved from a page into a
    free list threaded through the blocks, and page runs for large requests.  Memory is a map of cells
    by address; the header fields of a page are the cells at offsets 0 (next), 8 (head), 16 (size) and
    20 (used). */
module Malloc {
  import opened Prelude

  const HEADER := 24
  const PAGE := 0x1000

  /** The number of halvings until zero, which malloc counts to choose a bin. */
  function BitLength(n: nat): nat {
    if n == 0 then 0 else 1 + BitLength(n / 2)
  }

  function ClassOf(size: nat): nat { BitLength(size / 8) }

  /** Bins 0..8 hold blocks of 8..2048 bytes. */
  type Class = l: int | 0 <= l < 9

  function Stride(l: Class): (r: nat)
    ensures r > 0
  {
    8 * Pow2(l)
  }

  /** Blocks per page. */
  function Count(l: Class): nat { 4072 / Stride(l) }

  /** i << n. */
  function Shl(i: nat, n: nat): nat {
    if n == 0 then i else 2 * Shl(i, n - 1)
  }

  /** Block i starts at word i << l of the page's block area. */
  function Offset(l: Class, i: nat): nat { 8 * Shl(i, l) }

  function BlockAddress(page: int, l: Class, i: nat): int { page + HEADER + Offset(l, i) }

  // ----- Arithmetic of the classes -----

  lemma {:induction false} BitLengthBounds(n: nat)
    requires n > 0
    ensures BitLength(n) > 0 && Pow2(BitLength(n) - 1) <= n < Pow2(BitLength(n))
  {
    if n > 1 {
      BitLengthBounds(n / 2);
    }
  }

  /** A block of the chosen class is larger than the request and, from 8 bytes up, at most twice it. */
  lemma ClassFits(size: nat)
    requires ClassOf(size) < 9
    ensures size < Stride(ClassOf(size))
    ensures size >= 8 ==> Stride(ClassOf(size)) <= 2 * size
  {
    if size >= 8 {
      BitLengthBounds(size / 8);
    }
  }

  lemma Values(l: Class, i: nat)
    ensures l == 0 ==> Stride(l) == 8 && Offset(l, i) == 8 * i
    ensures l == 1 ==> Stride(l) == 16 && Offset(l, i) == 16 * i
    ensures l == 2 ==> Stride(l) == 32 && Offset(l, i) == 32 * i
    ensures l == 3 ==> Stride(l) == 64 && Offset(l, i) == 64 * i
    ensures l == 4 ==> Stride(l) == 128 && Offset(l, i) == 128 * i
    ensures l == 5 ==> Stride(l) == 256 && Offset(l, i) == 256 * i
    ensures l == 6 ==> Stride(l) == 512 && Offset(l, i) == 512 * i
    ensures l == 7 ==> Stride(l) == 1024 && Offset(l, i) == 1024 * i
    ensures l == 8 ==> Stride(l) == 2048 && Offset(l, i) == 2048 * i
  {
    assert Pow2(1) == 2 && Pow2(2) == 4 && Pow2(3) == 8 && Pow2(4) == 16;
    assert Pow2(5) == 32 && Pow2(6) == 64 && Pow2(7) == 128 && Pow2(8) == 256;
    assert Shl(i, 1) == 2 * i && Shl(i, 2) == 4 * i && Shl(i, 3) == 8 * i && Shl(i, 4) == 16 * i;
    assert Shl(i, 5) == 32 * i && Shl(i, 6) == 64 * i && Shl(i, 7) == 128 * i && Shl(i, 8) == 256 * i;
  }

  lemma CountValues(l: Class)
    ensures Count(l) == if l == 0 then 509 else if l == 1 then 254 else if l == 2 then 127 else if l == 3 then 63
                        else if l == 4 then 31 else if l == 5 then 15 else if l == 6 then 7 else if l == 7 then 3 else 1
  {
    Values(l, 0);
  }

  lemma OffsetFacts(l: Class, i: nat)
    ensures Offset(l, i) % 8 == 0 && Offset(l, i + 1) == Offset(l, i) + Stride(l)
    ensures Offset(l, 0) == 0 && Stride(l) % 8 == 0 && Stride(l) >= 8
    ensures Count(l) >= 1 && (i < Count(l) ==> Offset(l, i) + Stride(l) <= 4072)
  {
    hide Offset, Stride, Count;
    Values(l, i);
    Values(l, i + 1);
    Values(l, 0);
    CountValues(l);
  }

  lemma OffsetOrder(l: Class, i: nat, j: nat)
    requires i < j
    ensures Offset(l, i) + Stride(l) <= Offset(l, j)
  {
    hide Offset, Stride;
    Values(l, i);
    Values(l, j);
  }

  // ----- Which memory is whose -----

  /** What a page taken from the frame stack is: a page of blocks of one class, `used` of which were
      handed out; the first page of a large block with the number of pages from it on that are
      contiguous; or a later page of a large block. */
  datatype Role = Small(l: Class, used: nat) | BigHead(run: nat) | BigTail

  datatype BlockId = SmallBlock(page: nat, i: nat) | BigBlock(page: nat)

  ghost predicate PagesOk(pages: seq<int>) {
    && (forall j | 0 <= j < |pages| :: pages[j] > 0 && pages[j] % PAGE == 0)
    && (forall j, k | 0 <= j < k < |pages| :: pages[j] != pages[k])
  }

  ghost predicate RunOk(pages: seq<int>, roles: seq<Role>, j: nat, run: nat)
    requires |roles| <= |pages|
  {
    && 1 <= run && j + run <= |roles|
    && (forall k | j <= k < j + run :: pages[k] == pages[j] + PAGE * (k - j))
    && (forall k | j < k < j + run :: roles[k].BigTail?)
  }

  ghost predicate RolesOk(pages: seq<int>, roles: seq<Role>) {
    && PagesOk(pages) && |roles| <= |pages|
    && (forall j | 0 <= j < |roles| && roles[j].Small? :: roles[j].used <= Count(roles[j].l))
    && (forall j | 0 <= j < |roles| && roles[j].BigHead? :: RunOk(pages, roles, j, roles[j].run))
  }

  predicate IsBlock(roles: seq<Role>, b: BlockId) {
    && b.page < |roles|
    && match b
       case SmallBlock(j, i) => roles[j].Small? && i < roles[j].used
       case BigBlock(j) => roles[j].BigHead?
  }

  function Address(pages: seq<int>, roles: seq<Role>, b: BlockId): int
    requires |roles| <= |pages| && IsBlock(roles, b)
  {
    match b
    case SmallBlock(j, i) => BlockAddress(pages[j], roles[j].l, i)
    case BigBlock(j) => pages[j] + HEADER
  }

  function Capacity(roles: seq<Role>, b: BlockId): int
    requires IsBlock(roles, b)
  {
    match b
    case SmallBlock(j, _) => Stride(roles[j].l)
    case BigBlock(j) => PAGE * roles[j].run - HEADER
  }

  ghost predicate InBlock(pages: seq<int>, roles: seq<Role>, b: BlockId, a: int)
    requires |roles| <= |pages| && IsBlock(roles, b)
  {
    Address(pages, roles, b) <= a < Address(pages, roles, b) + Capacity(roles, b)
  }

  /** Each address of a block lies in exactly one page of the block, past its header. */
  lemma PageOfAddress(pages: seq<int>, roles: seq<Role>, b: BlockId, a: int) returns (k: nat)
    requires RolesOk(pages, roles) && IsBlock(roles, b) && InBlock(pages, roles, b, a)
    ensures k < |roles| && a - a % PAGE == pages[k]
    ensures b.SmallBlock? ==> k == b.page && a >= pages[k] + HEADER
    ensures b.BigBlock? ==> b.page <= k < b.page + roles[b.page].run && (k == b.page ==> a >= pages[k] + HEADER)
  {
    hide Stride, Count, Offset;
    match b
    case SmallBlock(j, i) =>
      OffsetFacts(roles[j].l, i);
      k := j;
      InPage(pages[j], a);
    case BigBlock(j) =>
      assert RunOk(pages, roles, j, roles[j].run);
      var m := (a - pages[j]) / PAGE;
      k := j + m;
      assert pages[k] == pages[j] + PAGE * m;
      InPage(pages[k], a);
  }

  lemma InPage(page: int, a: int)
    requires page % PAGE == 0 && page <= a < page + PAGE
    ensures a - a % PAGE == page
  {
  }

  /** Different blocks share no address. */
  lemma BlocksDisjoint(pages: seq<int>, roles: seq<Role>, b: BlockId, c: BlockId, a: int)
    requires RolesOk(pages, roles) && IsBlock(roles, b) && IsBlock(roles, c) && b != c
    requires InBlock(pages, roles, b, a)
    ensures !InBlock(pages, roles, c, a)
  {
    hide Stride, Count, Offset;
    assert b.BigBlock? ==> RunOk(pages, roles, b.page, roles[b.page].run);
    assert c.BigBlock? ==> RunOk(pages, roles, c.page, roles[c.page].run);
    var k := PageOfAddress(pages, roles, b, a);
    if b.SmallBlock? && c.SmallBlock? && b.page == c.page {
      OffsetOrder(roles[k].l, if b.i < c.i then b.i else c.i, if b.i < c.i then c.i else b.i);
    } else if InBlock(pages, roles, c, a) {
      var m := PageOfAddress(pages, roles, c, a);
    }
  }

  /** No block contains a header cell of a page, or an address of a block not handed out yet. */
  lemma BlocksAvoidHeaders(pages: seq<int>, roles: seq<Role>, b: BlockId, a: int, j: nat)
    requires RolesOk(pages, roles) && IsBlock(roles, b) && InBlock(pages, roles, b, a)
    requires j < |roles| && !roles[j].BigTail?
    ensures !(pages[j] <= a < pages[j] + HEADER)
    ensures forall i | roles[j].Small? && roles[j].used <= i < Count(roles[j].l) ::
              a != BlockAddress(pages[j], roles[j].l, i)
  {
    hide Stride, Count, Offset;
    var k := PageOfAddress(pages, roles, b, a);
    if b.BigBlock? {
      assert RunOk(pages, roles, b.page, roles[b.page].run);
    }
    assert pages[j] <= a < pages[j] + PAGE ==> a - a % PAGE == pages[j];
    forall i | roles[j].Small? && roles[j].used <= i < Count(roles[j].l)
      ensures a != BlockAddress(pages[j], roles[j].l, i)
    {
      OffsetFacts(roles[j].l, i);
      if a == BlockAddress(pages[j], roles[j].l, i) {
        assert a - a % PAGE == pages[j];
        assert b.SmallBlock? && b.page == j;
        OffsetOrder(roles[j].l, b.i, i);
      }
    }
  }

  // ----- The allocator's cells -----

  function Cell(cells: map<int, int>, a: int): int {
    if a in cells then cells[a] else 0
  }

  /** The free list of a page with `used` blocks handed out: the head is the next block, and each free
      block points to the one above it, the last to null. */
  ghost predicate Chain(cells: map<int, int>, page: int, l: Class, used: nat) {
    && Cell(cells, page + 8) == (if used < Count(l) then BlockAddress(page, l, used) else 0)
    && (forall i | used <= i < Count(l) :: Cell(cells, BlockAddress(page, l, i)) == NextFree(page, l, i))
  }

  function NextFree(page: int, l: Class, i: nat): int {
    if i + 1 < Count(l) then BlockAddress(page, l, i + 1) else 0
  }

  ghost predicate SamePage(cells: map<int, int>, cells': map<int, int>, page: int) {
    forall a | page <= a < page + PAGE :: Cell(cells', a) == Cell(cells, a)
  }

  lemma ChainKept(cells: map<int, int>, cells': map<int, int>, page: int, l: Class, used: nat)
    requires Chain(cells, page, l, used)
    requires Cell(cells', page + 8) == Cell(cells, page + 8)
    requires forall i | used <= i < Count(l) ::
               Cell(cells', BlockAddress(page, l, i)) == Cell(cells, BlockAddress(page, l, i))
    ensures Chain(cells', page, l, used)
  {
    hide Stride, Count, Offset;
  }

  lemma ChainOnPage(cells: map<int, int>, cells': map<int, int>, page: int, l: Class, used: nat)
    requires Chain(cells, page, l, used) && SamePage(cells, cells', page)
    ensures Chain(cells', page, l, used)
  {
    hide Stride, Count, Offset;
    forall i | used <= i < Count(l)
      ensures Cell(cells', BlockAddress(page, l, i)) == Cell(cells, BlockAddress(page, l, i))
    {
      OffsetFacts(l, i);
    }
  }

  /** Bin l: empty, or the header of the one page of the class that is not full; at least `low` of that
      page's blocks were handed out. */
  ghost predicate BinOk(cells: map<int, int>, bin: int, pages: seq<int>, roles: seq<Role>, open: int, l: Class,
                        low: nat)
    requires |roles| <= |pages|
  {
    && (forall j | 0 <= j < |roles| && roles[j].Small? && roles[j].l == l ::
          if j == open then low <= roles[j].used < Count(l) else roles[j].used == Count(l))
    && (if open < 0 then bin == 0
        else open < |roles| && roles[open].Small? && roles[open].l == l
             && bin == pages[open] && Cell(cells, bin) == 0 && Chain(cells, bin, l, roles[open].used))
  }

  /** The list of large blocks runs through their first pages in the order they were taken. */
  ghost predicate BigsOk(cells: map<int, int>, first: int, pages: seq<int>, roles: seq<Role>, bigs: seq<nat>)
    requires |roles| <= |pages|
  {
    && (forall k | 0 <= k < |bigs| :: bigs[k] < |roles| && roles[bigs[k]].BigHead?)
    && (forall j, k | 0 <= j < k < |bigs| :: bigs[j] != bigs[k])
    && first == (if bigs == [] then 0 else pages[bigs[0]])
    && (forall k | 0 <= k < |bigs| :: Cell(cells, pages[bigs[k]] + 20) == 1)
    && (forall k | 0 <= k < |bigs| :: Cell(cells, pages[bigs[k]]) == AfterBig(pages, bigs, k))
  }

  function AfterBig(pages: seq<int>, bigs: seq<nat>, k: nat): int
    requires forall j | 0 <= j < |bigs| :: bigs[j] < |pages|
  {
    if k + 1 < |bigs| then pages[bigs[k + 1]] else 0
  }

  class Heap {
    var cells: map<int, int>
    const bins: array<int>
    var firstBig: int
    var pos: nat
    const pages: seq<int>
    ghost var roles: seq<Role>
    ghost var open: seq<int>
    ghost var bigs: seq<nat>
    ghost var grants: seq<Grant>

    /** The bins and the list of large blocks start empty, and no page was taken. */
    constructor (pages: seq<int>)
      requires PagesOk(pages)
      ensures Valid() && GrantsOk(this.pages, roles, grants) && CountsOk(roles, grants) && fresh(bins)
      ensures this.pages == pages && pos == 0 && grants == [] && roles == []
    {
      bins := new int[10](_ => 0);
      cells, firstBig, pos, this.pages := map[], 0, 0, pages;
      roles, open, bigs, grants := [], seq(9, _ => -1), [], [];
    }

    /** The invariant, with at least `low` blocks handed out from the open page of one bin. */
    ghost predicate ValidBut(bin: int, low: nat)
      reads this, bins
    {
      && bins.Length == 10 && |open| == 9 && |roles| == pos
      && RolesOk(pages, roles)
      && (forall l: Class :: BinOk(cells, bins[l], pages, roles, open[l], l, if l == bin then low else 1))
      && BigsOk(cells, firstBig, pages, roles, bigs)
    }

    ghost predicate Valid()
      reads this, bins
    {
      ValidBut(-1, 1)
    }

    /** KernelExpandHeap: the next page. */
    method ExpandHeap() returns (page: int)
      requires pos < |pages|
      modifies `pos
      ensures page == pages[old(pos)] && pos == old(pos) + 1
    {
      page := pages[pos];
      pos := pos + 1;
    }

    method Store(a: int, v: int)
      modifies `cells
      ensures Cell(cells, a) == v && forall b | b != a :: Cell(cells, b) == Cell(old(cells), b)
    {
      cells := cells[a := v];
    }

    /** pop_from_stack. */
    method PopFromStack(header: int, ghost l: Class, ghost used: nat) returns (item: int)
      requires Chain(cells, header, l, used) && used < Count(l)
      modifies `cells
      ensures item == BlockAddress(header, l, used) && Chain(cells, header, l, used + 1)
      ensures forall a | a != header + 8 :: Cell(cells, a) == Cell(old(cells), a)
    {
      hide Stride, Count, Offset, Cell;
      item := Cell(cells, header + 8);
      var next := Cell(cells, item);
      ghost var before := cells;
      Store(header + 8, next);
      forall i | used + 1 <= i < Count(l) ensures Cell(cells, BlockAddress(header, l, i)) == NextFree(header, l, i) {
        OffsetFacts(l, i);
        assert Cell(before, BlockAddress(header, l, i)) == NextFree(header, l, i);
      }
      assert Cell(before, BlockAddress(header, l, used)) == NextFree(header, l, used);
    }

    /** The carving loop: link every block of the page to the one above it. */
    method Carve(page: int, l: Class)
      requires Cell(cells, page + 8) == page + HEADER
      modifies `cells
      ensures Chain(cells, page, l, 0)
      ensures forall a | !(page + 8 <= a < page + PAGE) :: Cell(cells, a) == Cell(old(cells), a)
    {
      hide Stride, Count, Offset, Cell;
      OffsetFacts(l, 0);
      var available := Count(l) - 1;
      var i := 0;
      while i < available
        invariant 0 <= i <= available
        invariant Cell(cells, page + 8) == BlockAddress(page, l, 0)
        invariant forall j | 0 <= j < i :: Cell(cells, BlockAddress(page, l, j)) == NextFree(page, l, j)
        invariant forall a | !(page + 8 <= a < page + PAGE) :: Cell(cells, a) == Cell(old(cells), a)
      {
        ghost var before := cells;
        OffsetFacts(l, i);
        Store(BlockAddress(page, l, i), BlockAddress(page, l, i + 1));
        forall j | 0 <= j < i ensures Cell(cells, BlockAddress(page, l, j)) == NextFree(page, l, j) {
          OffsetOrder(l, j, i);
          assert Cell(before, BlockAddress(page, l, j)) == NextFree(page, l, j);
        }
        i := i + 1;
      }
      ghost var before := cells;
      OffsetFacts(l, available);
      Store(BlockAddress(page, l, available), 0);
      forall j | 0 <= j < Count(l) ensures Cell(cells, BlockAddress(page, l, j)) == NextFree(page, l, j) {
        if j < available {
          OffsetOrder(l, j, available);
          assert Cell(before, BlockAddress(page, l, j)) == NextFree(page, l, j);
        }
      }
    }

    /** malloc_needs_expansion. */
    method NeedsExpansion(header: int) returns (b: bool)
      ensures b <==> header == 0 || Cell(cells, header + 8) == 0
    {
      if header == 0 {
        return true;
      }
      return Cell(cells, header + 8) == 0;
    }

    /** The expansion branch of malloc: take a page, put it at the head of the bin, and carve it. */
    method Expand(l: Class)
      requires Valid() && open[l] < 0 && pos < |pages|
      modifies `cells, `pos, bins, `roles, `open
      ensures ValidBut(l, 0) && roles == old(roles) + [Small(l, 0)] && open == old(open)[l := old(pos)]
      ensures forall a | !(pages[old(pos)] <= a < pages[old(pos)] + PAGE) :: Cell(cells, a) == Cell(old(cells), a)
    {
      hide Stride, Count, Offset, Cell, Chain, BigsOk, BinOk;
      ghost var cells0, roles0, open0, bins0 := cells, roles, open, bins[..];
      var header := ExpandHeap();
      Store(header + 8, header + HEADER);
      Store(header, bins[l]);
      bins[l] := header;
      Carve(header, l);
      ghost var before := cells;
      Store(header + 16, l);
      HeaderKept(before, cells, header, l, 0, 16);
      roles := roles + [Small(l, 0)];
      open := open[l := |roles| - 1];
      RolesGrow(pages, roles0, roles);
      forall m: Class ensures BinOk(cells, bins[m], pages, roles, open[m], m, if m == l then 0 else 1) {
        assert BinOk(cells0, bins0[m], pages, roles0, open0[m], m, 1);
        if m != l {
          BinKept(cells0, cells, bins0[m], pages, roles0, roles, open0[m], m, |roles0|);
        } else {
          BinExpanded(cells0, cells, bins0[l], pages, roles0, open0[l], l);
        }
      }
      BigsKept(cells0, cells, firstBig, pages, roles0, roles, bigs, |roles0|);
    }

    /** The rest of malloc for a small request: pop a block of the open page, and drop the page from the
        bin if that was its last. */
    method Take(l: Class) returns (a: int, ghost b: BlockId)
      requires ValidBut(l, 0) && open[l] >= 0
      modifies `cells, bins, `roles, `open
      ensures Valid()
      ensures roles == old(roles)[old(open)[l] := Small(l, old(roles)[old(open)[l]].used + 1)]
      ensures b == SmallBlock(old(open)[l], old(roles)[old(open)[l]].used) && IsBlock(roles, b)
      ensures a == Address(pages, roles, b)
      ensures forall c | c != pages[old(open)[l]] && c != pages[old(open)[l]] + 8 ::
                Cell(cells, c) == Cell(old(cells), c)
    {
      hide Stride, Count, Offset, Cell, Chain, BigsOk, BinOk;
      ghost var cells0, roles0, open0, bins0 := cells, roles, open, bins[..];
      OpenPage(cells, bins[l], pages, roles, open[l], l);
      ghost var j, used := open[l], roles[open[l]].used;
      var node := bins[l];
      a := PopFromStack(node, l, used);
      roles := roles[j := Small(l, used + 1)];
      b := SmallBlock(j, used);
      TakeRoles(pages, roles0, j, l);
      HeadAfterPop(cells, node, l, used + 1);
      if Cell(cells, node + 8) == 0 {
        bins[l] := Cell(cells, node);
        ghost var before := cells;
        Store(node, 0);
        HeaderKept(before, cells, node, l, used + 1, 0);
        open := open[l := -1];
      }
      forall m: Class ensures BinOk(cells, bins[m], pages, roles, open[m], m, 1) {
        assert BinOk(cells0, bins0[m], pages, roles0, open0[m], m, if m == l then 0 else 1);
        if m != l {
          BinKept(cells0, cells, bins0[m], pages, roles0, roles, open0[m], m, j);
        } else {
          BinTaken(cells0, cells, pages, roles0, j, l);
        }
      }
      BigsKept(cells0, cells, firstBig, pages, roles0, roles, bigs, j);
    }

    /** malloc for a request below 2048 bytes. */
    method SmallMalloc(l: Class) returns (a: int, ghost b: BlockId)
      requires Valid() && pos < |pages|
      modifies `cells, `pos, bins, `roles, `open
      ensures Valid() && b == NextBlock(old(roles), old(open)[l]) && roles == AfterSmall(old(roles), old(open)[l], l)
      ensures IsBlock(roles, b) && a == Address(pages, roles, b)
      ensures forall c, d | IsBlock(old(roles), c) && InBlock(pages, old(roles), c, d) ::
                Cell(cells, d) == Cell(old(cells), d)
    {
      hide Stride, Count, Offset, Cell, Chain, BigsOk, BinOk;
      HeadOfBin(cells, bins[l], pages, roles, open[l], l);
      var grow := NeedsExpansion(bins[l]);
      ghost var cells0, roles0 := cells, roles;
      if grow {
        Expand(l);
      } else {
        WeakenBin(cells, bins[l], pages, roles, open[l], l);
        OpenPage(cells, bins[l], pages, roles, open[l], l);
      }
      ghost var j := open[l];
      assert j < |roles|;
      a, b := Take(l);
      forall c, d | IsBlock(roles0, c) && InBlock(pages, roles0, c, d) ensures Cell(cells, d) == Cell(cells0, d) {
        if j < |roles0| {
          BlocksAvoidHeaders(pages, roles0, c, d, j);
        } else {
          var k := PageOfAddress(pages, roles0, c, d);
          PagesApart(pages, j, k);
        }
      }
    }

    /** The last header of the list of large blocks; without `free` each of them is in use, so the
        branch that would reuse a block is never taken. */
    method LastBig(list: nat) returns (last: int)
      requires Valid() && firstBig != 0
      ensures bigs != [] && last == pages[bigs[|bigs| - 1]]
    {
      hide Stride, Count, Offset, Cell, Chain, BinOk, RunOk;
      last := firstBig;
      ghost var k := 0;
      FirstOfBigs(cells, firstBig, pages, roles, bigs);
      NextBig(cells, firstBig, pages, roles, bigs, 0);
      while Cell(cells, last) != 0
        invariant k < |bigs| && last == pages[bigs[k]] && Cell(cells, last + 20) == 1
        invariant Cell(cells, last) == if k + 1 < |bigs| then pages[bigs[k + 1]] else 0
        decreases |bigs| - k
      {
        if Cell(cells, last + 20) == 0 && Cell(cells, last + 16) >= list {
          assert false;
        }
        last := Cell(cells, last);
        k := k + 1;
        NextBig(cells, firstBig, pages, roles, bigs, k);
      }
    }

    /** The header of a new large block, at the end of the list. */
    method BigHeader(list: nat, ghost at: nat) returns (header: int)
      requires Valid() && pos == at < |pages|
      modifies `cells, `pos, `firstBig
      ensures header == pages[at] && pos == at + 1
      ensures firstBig == if bigs == [] then header else old(firstBig)
      ensures OnlyBig(old(cells), cells, pages, at, LastOf(pages, bigs))
      ensures Cell(cells, header) == 0 && Cell(cells, header + 8) == header + HEADER && Cell(cells, header + 20) == 1
      ensures bigs != [] ==> Cell(cells, LastOf(pages, bigs)) == header
    {
      hide Stride, Count, Offset, Cell, Chain, BigsOk, BinOk, RunOk;
      FirstOfBigs(cells, firstBig, pages, roles, bigs);
      if bigs != [] {
        PagesApart(pages, at, bigs[|bigs| - 1]);
      }
      var previous := 0;
      if firstBig != 0 {
        previous := LastBig(list);
      }
      header := ExpandHeap();
      if previous == 0 {
        firstBig := header;
      } else {
        Store(previous, header);
      }
      Store(header + 8, header + HEADER);
      Store(header + 16, if previous == 0 then list else 0);
      Store(header + 20, 1);
      Store(header, 0);
    }

    /** malloc for a request of 2048 bytes or more. */
    method BigMalloc(list: nat) returns (a: int, ghost b: BlockId)
      requires Valid() && list >= 9 && pos + 1 + ExtraPages(list) <= |pages|
      modifies `cells, `pos, `firstBig, `roles, `bigs
      ensures Valid() && b == BigBlock(old(pos))
      ensures roles == old(roles) + BigRoles(Contiguous(pages, old(pos), 1 + ExtraPages(list)), ExtraPages(list))
      ensures IsBlock(roles, b) && a == Address(pages, roles, b)
      ensures forall c, d | IsBlock(old(roles), c) && InBlock(pages, old(roles), c, d) ::
                Cell(cells, d) == Cell(old(cells), d)
    {
      hide Stride, Count, Offset, Cell, Chain, BigsOk, BinOk, RunOk, ExtraPages, Contiguous, OnlyBig;
      ghost var cells0, roles0, first0, bigs0, at := cells, roles, firstBig, bigs, pos;
      FirstOfBigs(cells, firstBig, pages, roles, bigs);
      var header := BigHeader(list, at);
      var extra := ExtraPages(list);
      for i := 0 to extra
        invariant pos == at + 1 + i
        modifies `pos
      {
        var page := ExpandHeap();
      }
      a := Cell(cells, header + 8);
      ghost var run := Contiguous(pages, at, 1 + extra);
      BigRolesOk(pages, roles0, run, extra);
      roles := roles + BigRoles(run, extra);
      bigs := bigs + [at];
      b := BigBlock(at);
      BigsGrow(cells0, cells, first0, firstBig, pages, roles0, roles, bigs0, at);
      forall m: Class ensures BinOk(cells, bins[m], pages, roles, open[m], m, 1) {
        assert BinOk(cells0, bins[m], pages, roles0, open[m], m, 1);
        BinBeside(cells0, cells, bins[m], pages, roles0, roles, open[m], m, bigs0, at);
      }
      forall c, d | IsBlock(roles0, c) && InBlock(pages, roles0, c, d) ensures Cell(cells, d) == Cell(cells0, d) {
        BlockBeside(cells0, cells, pages, roles0, bigs0, at, c, d);
      }
    }

    /** The counting loop at the start of malloc. */
    method BinFor(size: nat) returns (list: nat)
      ensures list == ClassOf(size)
    {
      var n: nat := size / 8;
      list := 0;
      while n != 0
        invariant list + BitLength(n) == ClassOf(size)
      {
        n := n / 2;
        list := list + 1;
      }
    }

    /** malloc. */
    method Malloc(size: nat) returns (a: int)
      requires Valid() && GrantsOk(pages, roles, grants) && CountsOk(roles, grants)
      requires pos + (if ClassOf(size) < 9 then 1 else 1 + ExtraPages(ClassOf(size))) <= |pages|
      modifies this, bins
      ensures Valid() && GrantsOk(pages, roles, grants) && CountsOk(roles, grants)
      ensures |grants| == |old(grants)| + 1 && grants[..|old(grants)|] == old(grants)
      ensures grants[|old(grants)|].address == a && grants[|old(grants)|].size == size
      ensures IsBlock(roles, grants[|old(grants)|].id)
      ensures size <= Capacity(roles, grants[|old(grants)|].id)
         <==> ClassOf(size) < 9 || AreContiguous(pages, old(pos), PagesNeeded(size))
      ensures var l := ClassOf(size);
              roles == if l < 9 then AfterSmall(old(roles), old(open)[l], l)
                       else old(roles) + BigRoles(Contiguous(pages, old(pos), 1 + ExtraPages(l)), ExtraPages(l))
      ensures forall k, d | 0 <= k < |old(grants)| && InGrant(old(roles), old(grants)[k], d) ::
                Cell(cells, d) == Cell(old(cells), d)
    {
      hide Stride, Count, Offset, Cell, BigsOk, BinOk, RunOk, ExtraPages, Contiguous, Pow2, AfterSmall, BigRoles,
           Capacity;
      var list := BinFor(size);
      ghost var roles0, open0 := roles, open;
      ghost var b;
      if list >= 9 {
        a, b := BigMalloc(list);
        BigGrant(pages, roles0, |roles0|, size, grants);
        CountsGrow(roles0, roles, -1, grants, Grant(b, a, size), Contiguous(pages, |roles0|, 1 + ExtraPages(list)),
                   ExtraPages(list));
      } else {
        if open[list] >= 0 {
          WeakenBin(cells, bins[list], pages, roles, open[list], list);
          OpenPage(cells, bins[list], pages, roles, open[list], list);
        }
        a, b := SmallMalloc(list);
        SmallGrant(pages, roles0, open0[list], size, grants);
        CountsGrow(roles0, roles, open0[list], grants, Grant(b, a, size), 1, 0);
      }
      grants := grants + [Grant(b, a, size)];
    }

    /** A program that writes inside a block it was given breaks nothing. */
    method UserWrite(k: nat, a: int, v: int)
      requires Valid() && GrantsOk(pages, roles, grants) && k < |grants| && InGrant(roles, grants[k], a)
      modifies `cells
      ensures Valid() && Cell(cells, a) == v && forall b | b != a :: Cell(cells, b) == Cell(old(cells), b)
    {
      hide Stride, Count, Offset, Cell, BigsOk, BinOk, RunOk, Capacity;
      ghost var before := cells;
      Store(a, v);
      forall m: Class ensures BinOk(cells, bins[m], pages, roles, open[m], m, 1) {
        assert BinOk(before, bins[m], pages, roles, open[m], m, 1);
        BinSurvives(before, cells, bins[m], pages, roles, open[m], m, grants[k].id, a);
      }
      BigsSurvive(before, cells, firstBig, pages, roles, bigs, grants[k].id, a);
    }
  }

  /** A request that was served. */
  datatype Grant = Grant(id: BlockId, address: int, size: nat)

  ghost predicate InGrant(roles: seq<Role>, g: Grant, a: int) {
    IsBlock(roles, g.id) && g.address <= a < g.address + Capacity(roles, g.id)
  }

  /** The pages that a request and the header before it span. */
  function PagesNeeded(size: nat): nat { (size + HEADER + PAGE - 1) / PAGE }

  /** The n pages from j on follow one another in memory. */
  ghost predicate AreContiguous(pages: seq<int>, j: nat, n: nat) {
    j + n <= |pages| && forall k | j <= k < j + n :: pages[k] == pages[j] + PAGE * (k - j)
  }

  /** The address of a served request is that of a block, 8-byte aligned.  A small block is larger than the
      size; a large one holds the size if and only if the pages that the request spans are contiguous. */
  ghost predicate GrantOk(pages: seq<int>, roles: seq<Role>, g: Grant)
    requires |roles| <= |pages|
  {
    && IsBlock(roles, g.id) && g.address == Address(pages, roles, g.id) && g.address % 8 == 0
    && (g.id.SmallBlock? ==> g.size < Capacity(roles, g.id))
    && (g.id.BigBlock? ==> ClassOf(g.size) >= 9)
    && (g.id.BigBlock? ==>
          (g.size <= Capacity(roles, g.id) <==> AreContiguous(pages, g.id.page, PagesNeeded(g.size))))
  }

  /** All served requests are good, and no two got the same block. */
  ghost predicate GrantsOk(pages: seq<int>, roles: seq<Role>, grants: seq<Grant>)
    requires |roles| <= |pages|
  {
    && (forall k | 0 <= k < |grants| :: GrantOk(pages, roles, grants[k]))
    && (forall j, k | 0 <= j < k < |grants| :: grants[j].id != grants[k].id)
  }

  /** In any run of malloc, no two served requests share an address. */
  lemma GrantsDisjoint(pages: seq<int>, roles: seq<Role>, grants: seq<Grant>, j: nat, k: nat, a: int)
    requires RolesOk(pages, roles) && GrantsOk(pages, roles, grants)
    requires j < |grants| && k < |grants| && j != k && InGrant(roles, grants[j], a)
    ensures !InGrant(roles, grants[k], a)
  {
    hide Stride, Count, Offset, Capacity;
    assert GrantOk(pages, roles, grants[j]) && GrantOk(pages, roles, grants[k]);
    BlocksDisjoint(pages, roles, grants[j].id, grants[k].id, a);
  }

  lemma SmallKept(pages: seq<int>, roles: seq<Role>, open: int, l: Class, g: Grant)
    requires |roles| < |pages| || 0 <= open < |roles| <= |pages|
    requires 0 <= open < |roles| ==> roles[open].Small? && roles[open].l == l
    requires GrantOk(pages, roles, g)
    ensures GrantOk(pages, AfterSmall(roles, open, l), g) && g.id != NextBlock(roles, open)
  {
    hide Stride, Offset, ExtraPages, ClassOf;
  }

  lemma NewSmallGrant(pages: seq<int>, roles: seq<Role>, b: BlockId, size: nat)
    requires PagesOk(pages) && |roles| <= |pages| && b.SmallBlock? && IsBlock(roles, b)
    requires ClassOf(size) < 9 && roles[b.page].l == ClassOf(size)
    ensures GrantOk(pages, roles, Grant(b, Address(pages, roles, b), size))
  {
    hide Stride, Offset, ExtraPages, ClassOf;
    ClassFits(size);
    OffsetFacts(roles[b.page].l, b.i);
  }

  lemma SmallGrant(pages: seq<int>, roles: seq<Role>, open: int, size: nat, grants: seq<Grant>)
    requires RolesOk(pages, roles) && GrantsOk(pages, roles, grants) && ClassOf(size) < 9
    requires if 0 <= open < |roles| then roles[open].Small? && roles[open].l == ClassOf(size) else |roles| < |pages|
    ensures var roles', b := AfterSmall(roles, open, ClassOf(size)), NextBlock(roles, open);
            IsBlock(roles', b) && GrantsOk(pages, roles', grants + [Grant(b, Address(pages, roles', b), size)])
    ensures forall k | 0 <= k < |grants| :: IsBlock(roles, grants[k].id)
  {
    hide Stride, Count, Offset, RunOk, ExtraPages, ClassOf, GrantOk;
    var l := ClassOf(size);
    var roles', b := AfterSmall(roles, open, l), NextBlock(roles, open);
    NewSmallGrant(pages, roles', b, size);
    forall k | 0 <= k < |grants|
      ensures GrantOk(pages, roles', grants[k]) && grants[k].id != b && IsBlock(roles, grants[k].id)
    {
      SmallKept(pages, roles, open, l, grants[k]);
      GrantBlock(pages, roles, grants[k]);
    }
  }

  lemma GrantKept(pages: seq<int>, roles: seq<Role>, roles': seq<Role>, g: Grant)
    requires roles <= roles' && |roles'| <= |pages| && GrantOk(pages, roles, g)
    ensures GrantOk(pages, roles', g) && g.id.page < |roles|
  {
    hide Stride, Offset, ExtraPages, ClassOf;
    assert roles'[g.id.page] == roles[g.id.page];
  }

  /** A run of pages holds what needs no more pages; past the header addresses are 8-byte aligned. */
  lemma RunHolds(page: int, size: nat, run: nat)
    ensures size <= PAGE * run - HEADER <==> PagesNeeded(size) <= run
    ensures page % PAGE == 0 ==> (page + HEADER) % 8 == 0
  {
  }

  lemma NewBigGrant(pages: seq<int>, roles: seq<Role>, at: nat, size: nat)
    requires PagesOk(pages) && at < |roles| <= |pages| && ClassOf(size) >= 9
    requires at + 1 + ExtraPages(ClassOf(size)) <= |pages|
    requires roles[at] == BigHead(Contiguous(pages, at, 1 + ExtraPages(ClassOf(size))))
    ensures GrantOk(pages, roles, Grant(BigBlock(at), Address(pages, roles, BigBlock(at)), size))
  {
    hide Stride, Offset, ExtraPages, ClassOf, AreContiguous, Contiguous, PagesNeeded;
    HalfSuffices(size);
    var run := Contiguous(pages, at, 1 + ExtraPages(ClassOf(size)));
    ContiguousExactly(pages, at, 1 + ExtraPages(ClassOf(size)), PagesNeeded(size));
    RunHolds(pages[at], size, run);
  }

  lemma BigGrant(pages: seq<int>, roles: seq<Role>, at: nat, size: nat, grants: seq<Grant>)
    requires RolesOk(pages, roles) && GrantsOk(pages, roles, grants) && ClassOf(size) >= 9
    requires at == |roles| && at + 1 + ExtraPages(ClassOf(size)) <= |pages|
    ensures var extra := ExtraPages(ClassOf(size));
            var roles', b := roles + BigRoles(Contiguous(pages, at, 1 + extra), extra), BigBlock(at);
            IsBlock(roles', b) && GrantsOk(pages, roles', grants + [Grant(b, Address(pages, roles', b), size)])
    ensures forall k | 0 <= k < |grants| :: IsBlock(roles, grants[k].id)
  {
    hide Stride, Count, Offset, RunOk, ExtraPages, ClassOf, Contiguous, GrantOk, BigRoles, Address, Capacity;
    var extra := ExtraPages(ClassOf(size));
    var roles', b := roles + BigRoles(Contiguous(pages, at, 1 + extra), extra), BigBlock(at);
    BigRolesShape(Contiguous(pages, at, 1 + extra), extra);
    assert roles'[at] == BigHead(Contiguous(pages, at, 1 + extra));
    NewBigGrant(pages, roles', at, size);
    forall k | 0 <= k < |grants|
      ensures GrantOk(pages, roles', grants[k]) && grants[k].id != b && IsBlock(roles, grants[k].id)
    {
      GrantKept(pages, roles, roles', grants[k]);
      GrantBlock(pages, roles, grants[k]);
    }
  }

  lemma BigRolesShape(run: nat, extra: nat)
    ensures |BigRoles(run, extra)| == 1 + extra && BigRoles(run, extra)[0] == BigHead(run)
  {
  }

  lemma GrantBlock(pages: seq<int>, roles: seq<Role>, g: Grant)
    requires |roles| <= |pages| && GrantOk(pages, roles, g)
    ensures IsBlock(roles, g.id)
  {
    hide Stride, Offset, ExtraPages, ClassOf;
  }

  lemma BinSurvives(cells: map<int, int>, cells': map<int, int>, bin: int, pages: seq<int>, roles: seq<Role>, open: int,
                    m: Class, b: BlockId, a: int)
    requires RolesOk(pages, roles) && BinOk(cells, bin, pages, roles, open, m, 1)
    requires IsBlock(roles, b) && InBlock(pages, roles, b, a)
    requires forall c | c != a :: Cell(cells', c) == Cell(cells, c)
    ensures BinOk(cells', bin, pages, roles, open, m, 1)
  {
    hide Stride, Count, Offset, Cell, InBlock;
    if open >= 0 {
      BlocksAvoidHeaders(pages, roles, b, a, open);
      ChainKept(cells, cells', bin, m, roles[open].used);
    }
  }

  lemma BigsSurvive(cells: map<int, int>, cells': map<int, int>, first: int, pages: seq<int>, roles: seq<Role>,
                    bigs: seq<nat>, b: BlockId, a: int)
    requires RolesOk(pages, roles) && BigsOk(cells, first, pages, roles, bigs)
    requires IsBlock(roles, b) && InBlock(pages, roles, b, a)
    requires forall c | c != a :: Cell(cells', c) == Cell(cells, c)
    ensures BigsOk(cells', first, pages, roles, bigs)
  {
    hide Stride, Count, Offset, Cell, InBlock, AfterBig;
    forall k | 0 <= k < |bigs|
      ensures Cell(cells', pages[bigs[k]] + 20) == Cell(cells, pages[bigs[k]] + 20)
      ensures Cell(cells', pages[bigs[k]]) == Cell(cells, pages[bigs[k]])
    {
      assert roles[bigs[k]].BigHead?;
      BlocksAvoidHeaders(pages, roles, b, a, bigs[k]);
    }
  }

  /** The header of the last large block, or null. */
  function LastOf(pages: seq<int>, bigs: seq<nat>): int
    requires forall k | 0 <= k < |bigs| :: bigs[k] < |pages|
  {
    if bigs == [] then 0 else pages[bigs[|bigs| - 1]]
  }

  /** The roles a large block adds. */
  function BigRoles(run: nat, extra: nat): seq<Role> { [BigHead(run)] + seq(extra, _ => BigTail) }

  /** The next block of a bin: the first of a new page, or the next of the open one. */
  function NextBlock(roles: seq<Role>, open: int): BlockId
    requires 0 <= open < |roles| ==> roles[open].Small?
  {
    if 0 <= open < |roles| then SmallBlock(open, roles[open].used) else SmallBlock(|roles|, 0)
  }

  /** The roles after one small request of class l. */
  function AfterSmall(roles: seq<Role>, open: int, l: Class): seq<Role>
    requires 0 <= open < |roles| ==> roles[open].Small?
  {
    if 0 <= open < |roles| then roles[open := Small(l, roles[open].used + 1)] else roles + [Small(l, 1)]
  }

  lemma RolesGrow(pages: seq<int>, roles: seq<Role>, roles': seq<Role>)
    requires RolesOk(pages, roles) && roles <= roles' && |roles'| <= |pages|
    requires forall j | |roles| <= j < |roles'| :: roles'[j].Small? && roles'[j].used <= Count(roles'[j].l)
    ensures RolesOk(pages, roles')
  {
    forall j | 0 <= j < |roles'| && roles'[j].BigHead? ensures RunOk(pages, roles', j, roles'[j].run) {
      assert RunOk(pages, roles, j, roles[j].run);
    }
  }

  /** Page ranges do not overlap. */
  lemma PagesApart(pages: seq<int>, j: int, k: int)
    requires PagesOk(pages) && 0 <= j < |pages| && (0 <= k < |pages| ==> j != k)
    ensures 0 <= k < |pages| ==> pages[j] + PAGE <= pages[k] || pages[k] + PAGE <= pages[j]
  {
  }

  /** A bin of another class keeps its free list when only page `at` was touched. */
  lemma BinKept(cells: map<int, int>, cells': map<int, int>, bin: int, pages: seq<int>, roles: seq<Role>,
                roles': seq<Role>,
                open: int, m: Class, at: nat)
    requires PagesOk(pages) && |roles| <= |roles'| <= |pages| && at < |roles'|
    requires BinOk(cells, bin, pages, roles, open, m, 1)
    requires forall j | 0 <= j < |roles'| && roles'[j].Small? && roles'[j].l == m ::
               j < |roles| && roles[j] == roles'[j]
    requires forall j | 0 <= j < |roles| && roles[j].Small? && roles[j].l == m :: j != at && roles'[j] == roles[j]
    requires forall a | !(pages[at] <= a < pages[at] + PAGE) :: Cell(cells', a) == Cell(cells, a)
    ensures BinOk(cells', bin, pages, roles', open, m, 1)
  {
    hide Stride, Count, Offset, Cell, Chain;
    if open >= 0 {
      PagesApart(pages, at, open);
      ChainOnPage(cells, cells', bin, m, roles[open].used);
      assert Cell(cells', bin) == Cell(cells, bin);
    }
  }

  lemma BinExpanded(cells: map<int, int>, cells': map<int, int>, bin: int, pages: seq<int>, roles: seq<Role>,
                    open: int, l: Class)
    requires |roles| < |pages| && open < 0 && BinOk(cells, bin, pages, roles, open, l, 1)
    requires Chain(cells', pages[|roles|], l, 0) && Cell(cells', pages[|roles|]) == bin
    ensures BinOk(cells', pages[|roles|], pages, roles + [Small(l, 0)], |roles|, l, 0)
  {
    hide Stride, Offset, Cell, Chain;
    OffsetFacts(l, 0);
  }

  /** Large blocks' headers are untouched by what happens on page `at`. */
  lemma BigsKept(cells: map<int, int>, cells': map<int, int>, first: int, pages: seq<int>, roles: seq<Role>,
                 roles': seq<Role>, bigs: seq<nat>, at: nat)
    requires PagesOk(pages) && |roles| <= |roles'| <= |pages| && at < |roles'|
    requires BigsOk(cells, first, pages, roles, bigs)
    requires at < |roles| ==> !roles[at].BigHead?
    requires forall j | 0 <= j < |roles| && roles[j].BigHead? :: roles'[j].BigHead?
    requires forall a | !(pages[at] <= a < pages[at] + PAGE) :: Cell(cells', a) == Cell(cells, a)
    ensures BigsOk(cells', first, pages, roles', bigs)
  {
    hide Cell, AfterBig;
    forall k | 0 <= k < |bigs|
      ensures Cell(cells', pages[bigs[k]] + 20) == Cell(cells, pages[bigs[k]] + 20)
      ensures Cell(cells', pages[bigs[k]]) == Cell(cells, pages[bigs[k]])
    {
      assert bigs[k] < |roles| && roles[bigs[k]].BigHead?;
      PagesApart(pages, at, bigs[k]);
    }
  }

  lemma WeakenBin(cells: map<int, int>, bin: int, pages: seq<int>, roles: seq<Role>, open: int, l: Class)
    requires |roles| <= |pages| && BinOk(cells, bin, pages, roles, open, l, 1)
    ensures BinOk(cells, bin, pages, roles, open, l, 0)
  {
    hide Stride, Count, Offset, Cell, Chain;
  }

  lemma OpenPage(cells: map<int, int>, bin: int, pages: seq<int>, roles: seq<Role>, open: int, l: Class)
    requires RolesOk(pages, roles) && open >= 0 && BinOk(cells, bin, pages, roles, open, l, 0)
    ensures open < |roles| && roles[open].Small? && roles[open].l == l && roles[open].used < Count(l)
    ensures bin == pages[open] > 0 && Cell(cells, bin) == 0 && Chain(cells, bin, l, roles[open].used)
  {
    hide Stride, Count, Offset, Cell, Chain;
  }

  lemma TakeRoles(pages: seq<int>, roles: seq<Role>, j: nat, l: Class)
    requires RolesOk(pages, roles) && j < |roles| && roles[j].Small? && roles[j].l == l && roles[j].used < Count(l)
    ensures RolesOk(pages, roles[j := Small(l, roles[j].used + 1)])
  {
    hide Stride, Count, Offset;
    var roles' := roles[j := Small(l, roles[j].used + 1)];
    forall k | 0 <= k < |roles'| && roles'[k].BigHead? ensures RunOk(pages, roles', k, roles'[k].run) {
      assert RunOk(pages, roles, k, roles[k].run);
    }
  }

  lemma HeadAfterPop(cells: map<int, int>, page: int, l: Class, used: nat)
    requires Chain(cells, page, l, used) && page > 0
    ensures Cell(cells, page + 8) == 0 <==> used >= Count(l)
  {
    hide Stride, Count, Cell;
    OffsetFacts(l, used);
  }

  lemma BinTaken(cells: map<int, int>, cells': map<int, int>, pages: seq<int>, roles: seq<Role>, j: nat, l: Class)
    requires RolesOk(pages, roles) && j < |roles| && BinOk(cells, pages[j], pages, roles, j, l, 0)
    requires Chain(cells', pages[j], l, roles[j].used + 1) && Cell(cells', pages[j]) == 0
    ensures var roles' := roles[j := Small(l, roles[j].used + 1)];
            if roles[j].used + 1 < Count(l) then BinOk(cells', pages[j], pages, roles', j, l, 1)
            else BinOk(cells', 0, pages, roles', -1, l, 1)
  {
    hide Stride, Count, Offset, Cell, Chain;
  }

  lemma HeadOfBin(cells: map<int, int>, bin: int, pages: seq<int>, roles: seq<Role>, open: int, l: Class)
    requires RolesOk(pages, roles) && BinOk(cells, bin, pages, roles, open, l, 1)
    ensures bin == 0 || Cell(cells, bin + 8) == 0 <==> open < 0
  {
    hide Stride, Count, Offset, Cell;
    if open >= 0 {
      OffsetFacts(l, roles[open].used);
    }
  }

  /** The next and size fields of a page are not part of its free list. */
  lemma HeaderKept(cells: map<int, int>, cells': map<int, int>, page: int, l: Class, used: nat, field: int)
    requires Chain(cells, page, l, used) && (field == 0 || field == 16)
    requires forall a | a != page + field :: Cell(cells', a) == Cell(cells, a)
    ensures Chain(cells', page, l, used)
  {
    hide Stride, Count, Offset, Cell;
    forall i | used <= i < Count(l) ensures BlockAddress(page, l, i) >= page + HEADER {
      OffsetFacts(l, i);
    }
    ChainKept(cells, cells', page, l, used);
  }

  // ----- Large requests -----

  /** How many of the n pages from j on are contiguous. */
  function Contiguous(pages: seq<int>, j: nat, n: nat): (r: nat)
    requires 0 < n && j + n <= |pages|
    ensures 1 <= r <= n && forall k | j <= k < j + r :: pages[k] == pages[j] + PAGE * (k - j)
    ensures r < n ==> pages[j + r] != pages[j] + PAGE * r
  {
    if n == 1 then 1
    else
      var r := Contiguous(pages, j, n - 1);
      if r == n - 1 && pages[j + n - 1] == pages[j] + PAGE * (n - 1) then n else r
  }

  /** The pages malloc takes after the header page for a request of class `list`. */
  function ExtraPages(list: nat): nat
    requires list >= 9
  {
    2 * Pow2(list - 9)
  }

  lemma FirstOfBigs(cells: map<int, int>, first: int, pages: seq<int>, roles: seq<Role>, bigs: seq<nat>)
    requires PagesOk(pages) && |roles| <= |pages| && BigsOk(cells, first, pages, roles, bigs)
    ensures first == 0 <==> bigs == []
    ensures forall k | 0 <= k < |bigs| :: bigs[k] < |roles| && roles[bigs[k]].BigHead? && pages[bigs[k]] > 0
  {
    hide Cell, AfterBig;
  }

  lemma NextBig(cells: map<int, int>, first: int, pages: seq<int>, roles: seq<Role>, bigs: seq<nat>, k: nat)
    requires PagesOk(pages) && |roles| <= |pages| && BigsOk(cells, first, pages, roles, bigs) && k < |bigs|
    ensures bigs[k] < |roles| && Cell(cells, pages[bigs[k]] + 20) == 1
    ensures k + 1 < |bigs| ==> bigs[k + 1] < |roles|
    ensures Cell(cells, pages[bigs[k]]) == if k + 1 < |bigs| then pages[bigs[k + 1]] else 0
  {
    hide Cell;
  }

  lemma BigRolesOk(pages: seq<int>, roles: seq<Role>, run: nat, extra: nat)
    requires RolesOk(pages, roles) && |roles| + 1 + extra <= |pages|
    requires run == Contiguous(pages, |roles|, 1 + extra)
    ensures RolesOk(pages, roles + BigRoles(run, extra))
  {
    hide Stride, Count, Contiguous;
    var roles' := roles + BigRoles(run, extra);
    forall j | 0 <= j < |roles'| && roles'[j].BigHead? ensures RunOk(pages, roles', j, roles'[j].run) {
      if j < |roles| {
        assert RunOk(pages, roles, j, roles[j].run);
      }
    }
  }

  /** What BigMalloc may write: the new header page, and the next field of the last large header. */
  ghost predicate OnlyBig(cells: map<int, int>, cells': map<int, int>, pages: seq<int>, at: nat, previous: int)
    requires at < |pages|
  {
    forall a | !(pages[at] <= a < pages[at] + PAGE) && (previous == 0 || a != previous) ::
      Cell(cells', a) == Cell(cells, a)
  }

  /** A header that was not the last keeps its fields when a large block is added. */
  lemma BigKept(cells: map<int, int>, cells': map<int, int>, first: int, pages: seq<int>, roles: seq<Role>,
                bigs: seq<nat>, at: nat, k: nat)
    requires PagesOk(pages) && |roles| == at < |pages| && BigsOk(cells, first, pages, roles, bigs) && k < |bigs|
    requires OnlyBig(cells, cells', pages, at, LastOf(pages, bigs))
    ensures Cell(cells', pages[bigs[k]] + 20) == 1
    ensures k + 1 < |bigs| ==> Cell(cells', pages[bigs[k]]) == pages[bigs[k + 1]]
  {
    hide Cell;
    NextBig(cells, first, pages, roles, bigs, k);
    PagesApart(pages, at, bigs[k]);
    if k + 1 < |bigs| {
      PagesApart(pages, bigs[|bigs| - 1], bigs[k]);
    }
  }

  lemma AfterBigGrows(pages: seq<int>, bigs: seq<nat>, at: nat, k: nat)
    requires at < |pages| && (forall j | 0 <= j < |bigs| :: bigs[j] < |pages|) && k <= |bigs|
    ensures AfterBig(pages, bigs + [at], k)
         == if k + 1 < |bigs| then pages[bigs[k + 1]] else if k + 1 == |bigs| then pages[at] else 0
  {
  }

  lemma BigsGrow(cells: map<int, int>, cells': map<int, int>, first: int, first': int, pages: seq<int>,
                 roles: seq<Role>,
                 roles': seq<Role>, bigs: seq<nat>, at: nat)
    requires PagesOk(pages) && |roles| == at && roles <= roles' && at < |roles'| <= |pages| && roles'[at].BigHead?
    requires BigsOk(cells, first, pages, roles, bigs)
    requires first' == (if bigs == [] then pages[at] else first)
    requires OnlyBig(cells, cells', pages, at, LastOf(pages, bigs))
    requires bigs != [] ==> Cell(cells', LastOf(pages, bigs)) == pages[at]
    requires Cell(cells', pages[at]) == 0 && Cell(cells', pages[at] + 20) == 1
    ensures BigsOk(cells', first', pages, roles', bigs + [at])
  {
    hide Cell, OnlyBig, AfterBig;
    FirstOfBigs(cells, first, pages, roles, bigs);
    var bigs' := bigs + [at];
    forall k | 0 <= k < |bigs'|
      ensures Cell(cells', pages[bigs'[k]] + 20) == 1 && Cell(cells', pages[bigs'[k]]) == AfterBig(pages, bigs', k)
    {
      BigAdded(cells, cells', first, pages, roles, bigs, at, k);
    }
  }

  lemma BigAdded(cells: map<int, int>, cells': map<int, int>, first: int, pages: seq<int>, roles: seq<Role>,
                 bigs: seq<nat>, at: nat, k: nat)
    requires PagesOk(pages) && |roles| == at < |pages| && BigsOk(cells, first, pages, roles, bigs) && k <= |bigs|
    requires OnlyBig(cells, cells', pages, at, LastOf(pages, bigs))
    requires bigs != [] ==> Cell(cells', LastOf(pages, bigs)) == pages[at]
    requires Cell(cells', pages[at]) == 0 && Cell(cells', pages[at] + 20) == 1
    ensures var b := (bigs + [at])[k];
            b < |pages| && Cell(cells', pages[b] + 20) == 1 && Cell(cells', pages[b]) == AfterBig(pages, bigs + [at], k)
  {
    hide Cell, OnlyBig, AfterBig, PagesOk;
    AfterBigGrows(pages, bigs, at, k);
    if k < |bigs| {
      BigKept(cells, cells', first, pages, roles, bigs, at, k);
    }
  }

  lemma BinBeside(cells: map<int, int>, cells': map<int, int>, bin: int, pages: seq<int>, roles: seq<Role>,
                  roles': seq<Role>,
                  open: int, m: Class, bigs: seq<nat>, at: nat)
    requires PagesOk(pages) && |roles| == at && roles <= roles' && at < |roles'| <= |pages|
    requires forall j | at <= j < |roles'| :: !roles'[j].Small?
    requires BinOk(cells, bin, pages, roles, open, m, 1)
    requires forall k | 0 <= k < |bigs| :: bigs[k] < |roles| && !roles[bigs[k]].Small?
    requires OnlyBig(cells, cells', pages, at, LastOf(pages, bigs))
    ensures BinOk(cells', bin, pages, roles', open, m, 1)
  {
    hide Stride, Count, Offset, Cell, Chain;
    if open >= 0 {
      PagesApart(pages, at, open);
      if bigs != [] {
        PagesApart(pages, bigs[|bigs| - 1], open);
      }
      ChainOnPage(cells, cells', bin, m, roles[open].used);
      assert Cell(cells', bin) == Cell(cells, bin);
    }
  }

  lemma BlockBeside(cells: map<int, int>, cells': map<int, int>, pages: seq<int>, roles: seq<Role>, bigs: seq<nat>,
                    at: nat, c: BlockId, d: int)
    requires RolesOk(pages, roles) && |roles| == at < |pages| && IsBlock(roles, c) && InBlock(pages, roles, c, d)
    requires forall k | 0 <= k < |bigs| :: bigs[k] < |roles| && !roles[bigs[k]].BigTail?
    requires OnlyBig(cells, cells', pages, at, LastOf(pages, bigs))
    ensures Cell(cells', d) == Cell(cells, d)
  {
    hide Cell, Stride, Count, Offset;
    var k := PageOfAddress(pages, roles, c, d);
    PagesApart(pages, at, k);
    if bigs != [] {
      BlocksAvoidHeaders(pages, roles, c, d, bigs[|bigs| - 1]);
    }
  }

  lemma ContiguousExactly(pages: seq<int>, j: nat, n: nat, m: nat)
    requires 0 < m <= n && j + n <= |pages|
    ensures AreContiguous(pages, j, m) <==> m <= Contiguous(pages, j, n)
  {
    var r := Contiguous(pages, j, n);
    if r < m {
      assert pages[j + r] != pages[j] + PAGE * r;
    }
  }

  /** A large request spans at most the header page and half of the further pages taken for it. */
  lemma HalfSuffices(size: nat)
    requires ClassOf(size) >= 9
    ensures 0 < PagesNeeded(size) <= 1 + ExtraPages(ClassOf(size)) / 2
  {
    var list := ClassOf(size);
    BitLengthBounds(size / 8);
    Pow2Split(list - 9);
    assert size < 8 * Pow2(list);
  }

  /** The further pages taken for a large request are more than twice its size and at most four times. */
  lemma PagesTakenForLarge(size: nat)
    requires ClassOf(size) >= 9
    ensures 2 * size < PAGE * ExtraPages(ClassOf(size)) <= 4 * size
  {
    var list := ClassOf(size);
    BitLengthBounds(size / 8);
    Pow2Split(list - 9);
    assert Pow2(list) == 2 * Pow2(list - 1);
  }

  /** A large block holds the request if and only if the pages it spans, at most half of the further ones
      taken, are contiguous; up to 4072 bytes the header page alone holds it. */
  lemma LargeFits(pages: seq<int>, roles: seq<Role>, g: Grant)
    requires |roles| <= |pages| && GrantOk(pages, roles, g) && g.id.BigBlock?
    ensures g.size <= Capacity(roles, g.id) <==> AreContiguous(pages, g.id.page, PagesNeeded(g.size))
    ensures PagesNeeded(g.size) <= 1 + ExtraPages(ClassOf(g.size)) / 2
    ensures g.size <= PAGE - HEADER ==> g.size <= Capacity(roles, g.id)
  {
    hide ExtraPages, ClassOf, Stride, Offset;
    HalfSuffices(g.size);
  }

  /** 4073 bytes on a page with two others elsewhere: one byte does not fit. */
  lemma LargeNeedNotFit()
    ensures var pages, size := [0x1000, 0x9000, 0xA000], 4073;
            && ClassOf(size) >= 9 && |pages| == 1 + ExtraPages(ClassOf(size)) && PagesOk(pages)
            && var roles := BigRoles(Contiguous(pages, 0, 3), 2);
               var g := Grant(BigBlock(0), 0x1000 + HEADER, size);
               GrantOk(pages, roles, g) && Capacity(roles, g.id) == 4072
  {
    hide BitLength, ClassOf, ExtraPages, GrantOk, Contiguous;
    var pages, size := [0x1000, 0x9000, 0xA000], 4073;
    ClassNine();
    FirstAlone(pages);
    var roles := BigRoles(Contiguous(pages, 0, 3), 2);
    assert roles[0] == BigHead(1);
    NewBigGrant(pages, roles, 0, size);
  }

  lemma ClassNine()
    ensures ClassOf(4073) == 9 && ExtraPages(9) == 2
  {
    assert BitLength(31) == 5;
    assert BitLength(127) == 7;
    assert BitLength(509) == 9;
  }

  lemma FirstAlone(pages: seq<int>)
    requires |pages| == 3 && pages[1] != pages[0] + PAGE && pages[2] != pages[0] + 2 * PAGE
    ensures Contiguous(pages, 0, 3) == 1
  {
    assert Contiguous(pages, 0, 1) == 1 && Contiguous(pages, 0, 2) == 1;
  }

  lemma {:induction false} Pow2Split(n: nat)
    ensures Pow2(n + 9) == 512 * Pow2(n)
  {
    if n > 0 {
      Pow2Split(n - 1);
    } else {
      assert Pow2(1) == 2 && Pow2(2) == 4 && Pow2(3) == 8 && Pow2(4) == 16 && Pow2(5) == 32;
      assert Pow2(6) == 64 && Pow2(7) == 128 && Pow2(8) == 256 && Pow2(9) == 512;
    }
  }

  // ----- How many pages small requests take -----

  function PagesOf(roles: seq<Role>, l: Class): nat {
    if roles == [] then 0
    else var n := |roles| - 1;
         PagesOf(roles[..n], l) + if roles[n].Small? && roles[n].l == l then 1 else 0
  }

  function BlocksOf(roles: seq<Role>, l: Class): nat {
    if roles == [] then 0
    else var n := |roles| - 1;
         BlocksOf(roles[..n], l) + if roles[n].Small? && roles[n].l == l then roles[n].used else 0
  }

  /** The requests of class l that were served. */
  function Served(grants: seq<Grant>, l: Class): nat {
    if grants == [] then 0
    else var n := |grants| - 1;
         Served(grants[..n], l) + if ClassOf(grants[n].size) == l then 1 else 0
  }

  ghost predicate CountsOk(roles: seq<Role>, grants: seq<Grant>) {
    forall l: Class :: BlocksOf(roles, l) == Served(grants, l)
  }

  lemma {:induction false} BlocksUpdated(roles: seq<Role>, j: nat, r: Role, l: Class)
    requires j < |roles| && roles[j].Small? && r.Small? && r.l == roles[j].l
    ensures BlocksOf(roles[j := r], l) == BlocksOf(roles, l) + if r.l == l then r.used - roles[j].used else 0
    decreases |roles|
  {
    var n := |roles| - 1;
    if j == n {
      assert roles[j := r][..n] == roles[..n];
    } else {
      assert roles[j := r][..n] == roles[..n][j := r];
      BlocksUpdated(roles[..n], j, r, l);
    }
  }

  lemma {:induction false} BlocksAppended(roles: seq<Role>, more: seq<Role>, l: Class)
    requires forall r | r in more :: !r.Small?
    ensures BlocksOf(roles + more, l) == BlocksOf(roles, l)
    decreases |more|
  {
    if more == [] {
      assert roles + more == roles;
    } else {
      var n := |more| - 1;
      assert (roles + more)[..|roles| + n] == roles + more[..n];
      BlocksAppended(roles, more[..n], l);
    }
  }

  /** One more request of class l is one more block of class l. */
  lemma CountsGrow(roles: seq<Role>, roles': seq<Role>, open: int, grants: seq<Grant>, g: Grant, run: nat, extra: nat)
    requires CountsOk(roles, grants)
    requires ClassOf(g.size) < 9 && 0 <= open < |roles| ==> roles[open].Small? && roles[open].l == ClassOf(g.size)
    requires roles' == if ClassOf(g.size) < 9 then AfterSmall(roles, open, ClassOf(g.size))
                       else roles + BigRoles(run, extra)
    ensures CountsOk(roles', grants + [g])
  {
    hide ClassOf;
    forall l: Class ensures BlocksOf(roles', l) == Served(grants + [g], l) {
      assert (grants + [g])[..|grants|] == grants;
      if ClassOf(g.size) >= 9 {
        BlocksAppended(roles, BigRoles(run, extra), l);
      } else if 0 <= open < |roles| {
        BlocksUpdated(roles, open, Small(ClassOf(g.size), roles[open].used + 1), l);
      } else {
        assert roles'[..|roles|] == roles;
      }
    }
  }

  /** All pages of a class are full except the open one. */
  lemma {:induction false} BlocksArePages(roles: seq<Role>, open: int, l: Class)
    requires forall j | 0 <= j < |roles| && roles[j].Small? && roles[j].l == l ::
               j != open ==> roles[j].used == Count(l)
    requires 0 <= open < |roles| ==> roles[open].Small? && roles[open].l == l
    ensures BlocksOf(roles, l) == if 0 <= open < |roles| then (PagesOf(roles, l) - 1) * Count(l) + roles[open].used
                                  else PagesOf(roles, l) * Count(l)
    decreases |roles|
  {
    hide Count;
    if roles != [] {
      var n := |roles| - 1;
      BlocksArePages(roles[..n], open, l);
      var p := PagesOf(roles[..n], l);
      assert (p + 1) * Count(l) == p * Count(l) + Count(l) && (p - 1) * Count(l) == p * Count(l) - Count(l);
    }
  }

  lemma OnePageLess(p: int, c: int)
    ensures (p - 1) * c == p * c - c
  {
  }

  /** The pages taken for a class are exactly as many as its requests need: enough for all of them,
      and one less would not do. */
  lemma PagesTaken(cells: map<int, int>, bin: int, pages: seq<int>, roles: seq<Role>, open: int, l: Class,
                   grants: seq<Grant>)
    requires |roles| <= |pages| && BinOk(cells, bin, pages, roles, open, l, 1) && CountsOk(roles, grants)
    ensures Served(grants, l) <= PagesOf(roles, l) * Count(l)
    ensures PagesOf(roles, l) > 0 ==> (PagesOf(roles, l) - 1) * Count(l) < Served(grants, l)
  {
    hide Stride, Offset, Chain, Cell, Count, PagesOf, BlocksOf, Served;
    OffsetFacts(l, 0);
    BlocksArePages(roles, open, l);
    assert BlocksOf(roles, l) == Served(grants, l);
    OnePageLess(PagesOf(roles, l), Count(l));
  }
}
