/** The bit layer of 4-level paging: how a 64-bit entry packs an address and its flags, how the
    direct map turns physical addresses into pointers, and how a virtual address is cut into four
    table indices.  Everything above this layer sees entries only through these functions. */
module PageEntry {

  /** A physical frame, named by the address of its first byte. */
  type Frame = f: int | 0 <= f < 0x1_0000_0000_0000_0000
  type Index = i: int | 0 <= i < 512

  predicate Present(w: bv64) { w & 1 == 1 }

  function FrameOf(a: bv64): Frame { a as int }

  /** An entry without the PAGE_ENTRY bits: the address of the next table. */
  function TableAddress(w: bv64): bv64 { w & !0x8000_0000_0000_01FF }

  /** A leaf entry without bit 63 and the offset bits: the address of the page. */
  function PageAddress(w: bv64): bv64 { w & !0x8000_0000_0000_0FFF }

  function TableOf(w: bv64): Frame { FrameOf(TableAddress(w)) }

  function PageOf(w: bv64): Frame { FrameOf(PageAddress(w)) }

  /** An entry is an address with flags ORed in. */
  function Entry(address: bv64, flags: bv64): bv64 { address | flags }

  function PageOffset(a: bv64): bv64 { a & 0xFFF }

  /** Bits 12..47, the part of a virtual address that selects a page. */
  function PageNumber(va: bv64): bv64 { va & 0x0000_FFFF_FFFF_F000 }

  /** A physical address of a frame: page aligned, and bit 63 clear. */
  predicate Aligned(a: bv64) { a & 0x8000_0000_0000_0FFF == 0 }

  /** Flags that make an entry present and vanish when the PAGE_ENTRY bits are masked off. */
  predicate EntryFlags(v: bv64) { v & 1 == 1 && v & !0x1FF == 0 }

  /** The pointer through which the kernel reaches a physical address, and the way back. */
  function Direct(a: bv64, hhdm: bv64): bv64 { a | hhdm }

  function DirectSum(a: bv64, hhdm: bv64): bv64 { a + hhdm }

  function Physical(pointer: bv64, hhdm: bv64): bv64 { pointer & !hhdm }

  predicate Disjoint(a: bv64, hhdm: bv64) { a & hhdm == 0 }

  function Slot(w: bv64): Index { ((w & 0x1FF) as bv9) as int }

  /** The four indices of a virtual address, top level first. */
  function PathOf(va: bv64): (p: seq<Index>)
    ensures |p| == 4
  {
    [Slot(va >> 39), Slot(va >> 30), Slot(va >> 21), Slot(va >> 12)]
  }

  lemma FlagBits(a: bv64, v: bv64)
    requires v & 1 == 1 && v & !0x1FF == 0
    ensures (a | v) & 1 == 1
    ensures (a | v) & !0x8000_0000_0000_0FFF == a & !0x8000_0000_0000_0FFF
  {
  }

  lemma FrameBits(f: bv64, v: bv64)
    requires v & !0x1FF == 0
    requires f & 0x8000_0000_0000_0FFF == 0
    ensures (f | v) & !0x8000_0000_0000_01FF == f
    ensures f & !0x8000_0000_0000_0FFF == f
  {
  }

  lemma EntryIsPresent(a: bv64, v: bv64)
    requires v & 1 == 1
    ensures Present(Entry(a, v))
  {
  }

  lemma EntryLeads(a: bv64, v: bv64)
    requires (a | v) & !0x8000_0000_0000_01FF == a
    ensures TableAddress(Entry(a, v)) == a && TableOf(Entry(a, v)) == FrameOf(a)
  {
  }

  lemma EntryMaps(a: bv64, v: bv64)
    requires (a | v) & !0x8000_0000_0000_0FFF == a
    ensures PageOf(Entry(a, v)) == FrameOf(a)
  {
  }

  lemma AlignedAddress(a: bv64)
    requires Aligned(a)
    ensures TableAddress(a) == a && PageAddress(a) == a
  {
  }

  lemma AlignedPage(a: bv64)
    requires Aligned(a)
    ensures PageOf(a) == FrameOf(a)
  {
    hide FrameOf;
    AlignedAddress(a);
  }

  /** Decoding undoes encoding: an entry made from a frame and any of the flag sets the kernel uses
      is present and leads back to the frame. */
  lemma EntryRoundTrip(a: bv64, v: bv64)
    requires Aligned(a) && EntryFlags(v)
    ensures Present(Entry(a, v))
    ensures TableAddress(Entry(a, v)) == a
    ensures TableOf(Entry(a, v)) == FrameOf(a) == PageOf(Entry(a, v))
  {
    hide Present, TableAddress, TableOf, PageOf, Entry, FrameOf;
    FlagBits(a, v);
    FrameBits(a, v);
    EntryIsPresent(a, v);
    EntryLeads(a, v);
    EntryMaps(a, v);
  }

  /** A leaf made from an arbitrary physical address reads back as that address without the
      offset bits and bit 63, whatever the flags. */
  lemma LeafRoundTrip(pa: bv64, v: bv64)
    requires EntryFlags(v)
    ensures Present(Entry(pa, v)) && PageOf(Entry(pa, v)) == PageOf(pa)
  {
    FlagBits(pa, v);
  }

  /** The PAGE_ENTRY bits of an entry: what is not its address. */
  function Flags(w: bv64): bv64 { w & 0x8000_0000_0000_01FF }

  /** An entry for a frame carries exactly the flags it was made with; a leaf also those low bits, and bit 63,
      that its physical address brings along. */
  lemma EntryCarries(a: bv64, v: bv64)
    requires EntryFlags(v)
    ensures Flags(Entry(a, v)) == Flags(a) | v
    ensures Aligned(a) ==> Flags(a) == 0 && Flags(Entry(a, v)) == v
  {
  }

  lemma ZeroIsAbsent()
    ensures !Present(0)
  {
  }

  lemma DirectMapBits(a: bv64, hhdm: bv64)
    requires a & hhdm == 0
    ensures a + hhdm == a | hhdm && (a | hhdm) & !hhdm == a
  {
  }

  lemma Unfolded(w: bv64, hhdm: bv64)
    ensures Direct(w, hhdm) == w | hhdm && TableAddress(w) == w & !0x8000_0000_0000_01FF
    ensures Direct(TableAddress(w), hhdm) == (w & !0x8000_0000_0000_01FF) | hhdm
  {
  }

  lemma UnmapBits(w: bv64, hhdm: bv64)
    ensures ((w | hhdm) & !0x8000_0000_0000_01FF) | hhdm == (w & !0x8000_0000_0000_01FF) | hhdm
  {
  }

  /** When the direct-map offset shares no bit with a physical address, `+` and `|` build the same
      pointer, and the pointer leads back to the address. */
  lemma DirectMapRoundTrip(a: bv64, hhdm: bv64)
    requires Disjoint(a, hhdm)
    ensures DirectSum(a, hhdm) == Direct(a, hhdm)
    ensures Physical(Direct(a, hhdm), hhdm) == a
  {
    DirectMapBits(a, hhdm);
  }

  /** KernelUnmapPage ORs the direct-map offset into the entry before masking it; the pointer it
      gets is still the one the other walks compute. */
  lemma UnmapPointer(w: bv64, hhdm: bv64)
    ensures Direct(TableAddress(Direct(w, hhdm)), hhdm) == Direct(TableAddress(w), hhdm)
  {
    hide Direct, TableAddress;
    Unfolded(w, hhdm);
    Unfolded(w | hhdm, hhdm);
    UnmapBits(w, hhdm);
  }

  /** A translated address is never one of the lookup's error codes -1..-4 (mod 2^64). */
  lemma PageIsNoErrorCode(w: bv64, code: bv64)
    requires 0xFFFF_FFFF_FFFF_FFFC <= code
    ensures PageAddress(w) != code
  {
  }

  lemma SlotIsInjective(x: bv64, y: bv64)
    requires Slot(x) == Slot(y)
    ensures x & 0x1FF == y & 0x1FF
  {
    var p, q := (x & 0x1FF) as bv9, (y & 0x1FF) as bv9;
    assert (p as int) as bv9 == p;
    assert (q as int) as bv9 == q;
  }

  lemma FieldsGivePage(a: bv64, b: bv64)
    requires (a >> 39) & 0x1FF == (b >> 39) & 0x1FF
    requires (a >> 30) & 0x1FF == (b >> 30) & 0x1FF
    requires (a >> 21) & 0x1FF == (b >> 21) & 0x1FF
    requires (a >> 12) & 0x1FF == (b >> 12) & 0x1FF
    ensures PageNumber(a) == PageNumber(b)
  {
  }

  lemma PageGivesSlots(a: bv64, b: bv64)
    requires PageNumber(a) == PageNumber(b)
    ensures Slot(a >> 39) == Slot(b >> 39) && Slot(a >> 30) == Slot(b >> 30)
    ensures Slot(a >> 21) == Slot(b >> 21) && Slot(a >> 12) == Slot(b >> 12)
  {
    assert (a >> 39) & 0x1FF == (b >> 39) & 0x1FF;
    assert (a >> 30) & 0x1FF == (b >> 30) & 0x1FF;
    assert (a >> 21) & 0x1FF == (b >> 21) & 0x1FF;
    assert (a >> 12) & 0x1FF == (b >> 12) & 0x1FF;
  }

  lemma SlotsGivePage(a: bv64, b: bv64)
    requires Slot(a >> 39) == Slot(b >> 39) && Slot(a >> 30) == Slot(b >> 30)
    requires Slot(a >> 21) == Slot(b >> 21) && Slot(a >> 12) == Slot(b >> 12)
    ensures PageNumber(a) == PageNumber(b)
  {
    hide Slot, PageNumber;
    SlotIsInjective(a >> 39, b >> 39);
    SlotIsInjective(a >> 30, b >> 30);
    SlotIsInjective(a >> 21, b >> 21);
    SlotIsInjective(a >> 12, b >> 12);
    FieldsGivePage(a, b);
  }

  /** Two addresses take the same path through the tables exactly when bits 12..47 agree. */
  lemma PathIsPageNumber(a: bv64, b: bv64)
    ensures PathOf(a) == PathOf(b) <==> PageNumber(a) == PageNumber(b)
  {
    hide Slot, PageNumber;
    var p, q := PathOf(a), PathOf(b);
    if p == q {
      assert p[0] == q[0] && p[1] == q[1] && p[2] == q[2] && p[3] == q[3];
      SlotsGivePage(a, b);
    } else if PageNumber(a) == PageNumber(b) {
      PageGivesSlots(a, b);
    }
  }

  lemma FrameIsInjective(x: bv64, y: bv64)
    requires FrameOf(x) == FrameOf(y)
    ensures x == y
  {
    assert (x as int) as bv64 == x;
    assert (y as int) as bv64 == y;
  }

  // ----- The page number as a number -----

  lemma JoinedValue(p: bv9, q: bv9, r: bv9, t: bv9)
    ensures (((p as bv64) << 39) | ((q as bv64) << 30) | ((r as bv64) << 21) | ((t as bv64) << 12)) as int
         == 0x80_0000_0000 * (p as int) + 0x4000_0000 * (q as int) + 0x20_0000 * (r as int) + 0x1000 * (t as int)
  {
  }

  lemma FieldsValue(va: bv64)
    ensures (va & 0x0000_FFFF_FFFF_F000) as int
         == 0x80_0000_0000 * ((((va >> 39) & 0x1FF) as bv9) as int)
            + 0x4000_0000 * ((((va >> 30) & 0x1FF) as bv9) as int)
            + 0x20_0000 * ((((va >> 21) & 0x1FF) as bv9) as int) + 0x1000 * ((((va >> 12) & 0x1FF) as bv9) as int)
  {
    JoinedValue(((va >> 39) & 0x1FF) as bv9, ((va >> 30) & 0x1FF) as bv9, ((va >> 21) & 0x1FF) as bv9,
                ((va >> 12) & 0x1FF) as bv9);
  }

  /** Bits 12..47 of an address, as a number, have the four indices as their digits in base 512. */
  lemma PageNumberValue(va: bv64)
    ensures FrameOf(PageNumber(va)) == 0x80_0000_0000 * Slot(va >> 39) + 0x4000_0000 * Slot(va >> 30)
                                       + 0x20_0000 * Slot(va >> 21) + 0x1000 * Slot(va >> 12)
  {
    FieldsValue(va);
  }
}
