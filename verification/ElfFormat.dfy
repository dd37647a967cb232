/** The headers of an executable file: what the loader reads from them, and that this is what any writer of such a
    file has put there. */
module ElfFormat {
  import opened Prelude

  type Byte = b: int | 0 <= b < 256

  datatype Segment = Segment(fileOffset: nat, virtualAddress: nat, fileSize: nat)

  // ----- Reading the headers -----

  function LittleEndian(file: seq<Byte>, offset: nat, size: nat): nat
    requires offset + size <= |file|
    decreases size
  {
    if size == 0 then 0 else file[offset] + 256 * LittleEndian(file, offset + 1, size - 1)
  }

  predicate HeaderFits(file: seq<Byte>) { |file| >= 64 }

  function ProgramHeader(file: seq<Byte>, i: nat): nat
    requires HeaderFits(file)
  {
    if i == 0 then LittleEndian(file, 32, 8) else ProgramHeader(file, i - 1) + LittleEndian(file, 54, 2)
  }

  function SegmentCount(file: seq<Byte>): nat
    requires HeaderFits(file)
  {
    LittleEndian(file, 56, 2)
  }

  function SegmentAt(file: seq<Byte>, i: nat): Segment
    requires HeaderFits(file) && ProgramHeader(file, i) + 56 <= |file|
  {
    var h := ProgramHeader(file, i);
    Segment(LittleEndian(file, h + 8, 8), LittleEndian(file, h + 16, 8), LittleEndian(file, h + 32, 8))
  }

  function EntryAddress(file: seq<Byte>): nat
    requires HeaderFits(file)
  {
    LittleEndian(file, 24, 8)
  }

  // ----- Writing them -----

  /** A number in `size` bytes, the lowest first. */
  function Encode(n: nat, size: nat): (r: seq<Byte>)
    ensures |r| == size
    decreases size
  {
    if size == 0 then [] else [n % 256] + Encode(n / 256, size - 1)
  }

  /** The fields of a file header, in the order of their declaration. */
  datatype FileHeader = FileHeader(ident: seq<Byte>, kind: nat, machine: nat, version: nat, entry: nat,
                                   programHeaders: nat, sectionHeaders: nat, flags: nat, headerSize: nat,
                                   entrySize: nat, entryCount: nat, sectionSize: nat, sectionCount: nat,
                                   stringIndex: nat)

  /** The fields of a program header, in the order of their declaration. */
  datatype Program = Program(kind: nat, flags: nat, fileOffset: nat, virtualAddress: nat, physicalAddress: nat,
                             fileSize: nat, memorySize: nat, alignment: nat)

  predicate Fits(n: nat, size: nat) { n < Pow2(8 * size) }

  /** Every field has its width, and the magic number is there. */
  predicate HeaderOk(h: FileHeader) {
    && |h.ident| == 16 && h.ident[0] == 0x7F
    && Fits(h.kind, 2) && Fits(h.machine, 2) && Fits(h.version, 4) && Fits(h.entry, 8)
    && Fits(h.programHeaders, 8) && Fits(h.sectionHeaders, 8) && Fits(h.flags, 4) && Fits(h.headerSize, 2)
    && Fits(h.entrySize, 2) && Fits(h.entryCount, 2) && Fits(h.sectionSize, 2) && Fits(h.sectionCount, 2)
    && Fits(h.stringIndex, 2)
  }

  predicate ProgramOk(p: Program) {
    && Fits(p.kind, 4) && Fits(p.flags, 4) && Fits(p.fileOffset, 8) && Fits(p.virtualAddress, 8)
    && Fits(p.physicalAddress, 8) && Fits(p.fileSize, 8) && Fits(p.memorySize, 8) && Fits(p.alignment, 8)
  }

  function EncodeHeader(h: FileHeader): (r: seq<Byte>)
    requires |h.ident| == 16
    ensures |r| == 64
  {
    h.ident + Encode(h.kind, 2) + Encode(h.machine, 2) + Encode(h.version, 4) + Encode(h.entry, 8)
    + Encode(h.programHeaders, 8) + Encode(h.sectionHeaders, 8) + Encode(h.flags, 4) + Encode(h.headerSize, 2)
    + Encode(h.entrySize, 2) + Encode(h.entryCount, 2) + Encode(h.sectionSize, 2) + Encode(h.sectionCount, 2)
    + Encode(h.stringIndex, 2)
  }

  function EncodeProgram(p: Program): (r: seq<Byte>)
    ensures |r| == 56
  {
    Encode(p.kind, 4) + Encode(p.flags, 4) + Encode(p.fileOffset, 8) + Encode(p.virtualAddress, 8)
    + Encode(p.physicalAddress, 8) + Encode(p.fileSize, 8) + Encode(p.memorySize, 8) + Encode(p.alignment, 8)
  }

  /** The file starts with this header, and has these program headers where it says, wherever all else lies. */
  ghost predicate Describes(file: seq<Byte>, h: FileHeader, ps: seq<Program>) {
    && HeaderOk(h) && |ps| == h.entryCount && EncodeHeader(h) <= file
    && forall i | 0 <= i < |ps| :: ProgramOk(ps[i]) && HeaderAt(file, HeaderStart(h, i), ps[i])
  }

  /** Where program header i starts. */
  function HeaderStart(h: FileHeader, i: nat): nat { h.programHeaders + i * h.entrySize }

  ghost predicate HeaderAt(file: seq<Byte>, at: nat, p: Program) {
    at + 56 <= |file| && file[at..at + 56] == EncodeProgram(p)
  }

  // ----- Reading gives back what was written -----

  lemma {:induction false} ReadsBack(file: seq<Byte>, offset: nat, n: nat, size: nat)
    requires Fits(n, size) && offset + size <= |file| && file[offset..offset + size] == Encode(n, size)
    ensures LittleEndian(file, offset, size) == n
    decreases size
  {
    if size > 0 {
      var field := file[offset..offset + size];
      assert field[0] == file[offset] && field[1..] == file[offset + 1..offset + size];
      assert Pow2(8 * size) == 256 * Pow2(8 * (size - 1)) by { EightBits(size); }
      ReadsBack(file, offset + 1, n / 256, size - 1);
    }
  }

  lemma TwoBits(k: nat)
    ensures Pow2(k + 2) == 4 * Pow2(k)
  {
    assert Pow2(k + 2) == 2 * Pow2(k + 1);
  }

  lemma EightBits(size: nat)
    requires size > 0
    ensures Pow2(8 * size) == 256 * Pow2(8 * (size - 1))
  {
    hide Pow2;
    var k := 8 * (size - 1);
    TwoBits(k);
    TwoBits(k + 2);
    TwoBits(k + 4);
    TwoBits(k + 6);
  }

  /** A field that is a slice of a piece of the file. */
  lemma FieldReadsBack(file: seq<Byte>, at: nat, piece: seq<Byte>, offset: nat, n: nat, size: nat)
    requires at + |piece| <= |file| && file[at..at + |piece|] == piece
    requires Fits(n, size) && offset + size <= |piece| && piece[offset..offset + size] == Encode(n, size)
    ensures LittleEndian(file, at + offset, size) == n
  {
    var here, there := file[at + offset..at + offset + size], piece[offset..offset + size];
    forall k | 0 <= k < size ensures here[k] == there[k] {
      assert there[k] == file[at..at + |piece|][offset + k];
    }
    assert here == there;
    ReadsBack(file, at + offset, n, size);
  }

  lemma EntryField(h: FileHeader)
    requires HeaderOk(h)
    ensures EncodeHeader(h)[24..32] == Encode(h.entry, 8) && EncodeHeader(h)[32..40] == Encode(h.programHeaders, 8)
    ensures EncodeHeader(h)[54..56] == Encode(h.entrySize, 2) && EncodeHeader(h)[56..58] == Encode(h.entryCount, 2)
    ensures EncodeHeader(h)[0] == 0x7F
  {
    hide Encode, Fits;
  }

  lemma ProgramFields(p: Program)
    ensures EncodeProgram(p)[8..16] == Encode(p.fileOffset, 8)
    ensures EncodeProgram(p)[16..24] == Encode(p.virtualAddress, 8)
    ensures EncodeProgram(p)[32..40] == Encode(p.fileSize, 8)
  {
    hide Encode;
  }

  lemma ReadHeader(file: seq<Byte>, h: FileHeader)
    requires HeaderOk(h) && EncodeHeader(h) <= file
    ensures HeaderFits(file) && file[0] == 0x7F && EntryAddress(file) == h.entry && SegmentCount(file) == h.entryCount
    ensures LittleEndian(file, 32, 8) == h.programHeaders && LittleEndian(file, 54, 2) == h.entrySize
  {
    hide Encode, EncodeHeader, LittleEndian, Fits;
    var head := EncodeHeader(h);
    EntryField(h);
    assert file[0..0 + |head|] == head;
    FieldReadsBack(file, 0, head, 24, h.entry, 8);
    FieldReadsBack(file, 0, head, 32, h.programHeaders, 8);
    FieldReadsBack(file, 0, head, 54, h.entrySize, 2);
    FieldReadsBack(file, 0, head, 56, h.entryCount, 2);
  }

  lemma {:induction false} ReadStarts(file: seq<Byte>, h: FileHeader, i: nat)
    requires HeaderOk(h) && EncodeHeader(h) <= file
    ensures HeaderFits(file) && ProgramHeader(file, i) == HeaderStart(h, i)
    decreases i
  {
    hide EncodeHeader, LittleEndian, HeaderOk;
    ReadHeader(file, h);
    if i > 0 {
      ReadStarts(file, h, i - 1);
      NextStart(h, i);
    }
  }

  lemma NextStart(h: FileHeader, i: nat)
    requires i > 0
    ensures HeaderStart(h, 0) == h.programHeaders && HeaderStart(h, i) == HeaderStart(h, i - 1) + h.entrySize
  {
  }

  /** The segment that a program header describes. */
  function SegmentOf(p: Program): Segment { Segment(p.fileOffset, p.virtualAddress, p.fileSize) }

  /** Whatever wrote the file, the loader reads the described entry point, number of segments and segments. */
  lemma ReadsDescription(file: seq<Byte>, h: FileHeader, ps: seq<Program>)
    requires Describes(file, h, ps)
    ensures HeaderFits(file) && file[0] == 0x7F && EntryAddress(file) == h.entry && SegmentCount(file) == |ps|
    ensures forall i | 0 <= i < |ps| :: ProgramHeader(file, i) + 56 <= |file| && SegmentAt(file, i) == SegmentOf(ps[i])
  {
    hide EncodeHeader, LittleEndian, HeaderOk, EncodeProgram, Encode, ProgramHeader, Fits, HeaderStart;
    ReadHeader(file, h);
    forall i | 0 <= i < |ps|
      ensures ProgramHeader(file, i) + 56 <= |file| && SegmentAt(file, i) == SegmentOf(ps[i])
    {
      ReadStarts(file, h, i);
      assert ProgramOk(ps[i]) && HeaderAt(file, HeaderStart(h, i), ps[i]);
      ReadProgram(file, HeaderStart(h, i), ps[i]);
    }
  }

  lemma ReadProgram(file: seq<Byte>, at: nat, p: Program)
    requires ProgramOk(p) && HeaderAt(file, at, p)
    ensures LittleEndian(file, at + 8, 8) == p.fileOffset && LittleEndian(file, at + 16, 8) == p.virtualAddress
    ensures LittleEndian(file, at + 32, 8) == p.fileSize
  {
    hide EncodeProgram, Encode, LittleEndian, Fits;
    ProgramFields(p);
    FieldReadsBack(file, at, EncodeProgram(p), 8, p.fileOffset, 8);
    FieldReadsBack(file, at, EncodeProgram(p), 16, p.virtualAddress, 8);
    FieldReadsBack(file, at, EncodeProgram(p), 32, p.fileSize, 8);
  }

  // ----- Every file is one that was written like this -----

  lemma FirstByte(b: Byte, n: nat, size: nat)
    requires size > 0 && Fits(n, size - 1)
    ensures Encode(b + 256 * n, size) == [b] + Encode(n, size - 1) && Fits(b + 256 * n, size)
  {
    EightBits(size);
    hide Pow2;
    assert (b + 256 * n) % 256 == b && (b + 256 * n) / 256 == n;
  }

  lemma {:induction false} WritesBack(file: seq<Byte>, offset: nat, size: nat)
    requires offset + size <= |file|
    ensures Encode(LittleEndian(file, offset, size), size) == file[offset..offset + size]
    ensures Fits(LittleEndian(file, offset, size), size)
    decreases size
  {
    if size > 0 {
      hide Fits, Encode, Pow2;
      WritesBack(file, offset + 1, size - 1);
      FirstByte(file[offset], LittleEndian(file, offset + 1, size - 1), size);
      assert file[offset..offset + size] == [file[offset]] + file[offset + 1..offset + size];
    }
  }

  function HeaderOf(file: seq<Byte>): FileHeader
    requires HeaderFits(file)
  {
    FileHeader(file[..16], LittleEndian(file, 16, 2), LittleEndian(file, 18, 2), LittleEndian(file, 20, 4),
               LittleEndian(file, 24, 8), LittleEndian(file, 32, 8), LittleEndian(file, 40, 8),
               LittleEndian(file, 48, 4), LittleEndian(file, 52, 2), LittleEndian(file, 54, 2),
               LittleEndian(file, 56, 2), LittleEndian(file, 58, 2), LittleEndian(file, 60, 2),
               LittleEndian(file, 62, 2))
  }

  function ProgramOf(file: seq<Byte>, at: nat): Program
    requires at + 56 <= |file|
  {
    Program(LittleEndian(file, at, 4), LittleEndian(file, at + 4, 4), LittleEndian(file, at + 8, 8),
            LittleEndian(file, at + 16, 8), LittleEndian(file, at + 24, 8), LittleEndian(file, at + 32, 8),
            LittleEndian(file, at + 40, 8), LittleEndian(file, at + 48, 8))
  }

  lemma HeaderWritesBack(file: seq<Byte>)
    requires HeaderFits(file) && file[0] == 0x7F
    ensures HeaderOk(HeaderOf(file)) && EncodeHeader(HeaderOf(file)) == file[..64]
  {
    hide Encode, LittleEndian, Fits;
    WritesBack(file, 16, 2);
    WritesBack(file, 18, 2);
    WritesBack(file, 20, 4);
    WritesBack(file, 24, 8);
    WritesBack(file, 32, 8);
    WritesBack(file, 40, 8);
    WritesBack(file, 48, 4);
    WritesBack(file, 52, 2);
    WritesBack(file, 54, 2);
    WritesBack(file, 56, 2);
    WritesBack(file, 58, 2);
    WritesBack(file, 60, 2);
    WritesBack(file, 62, 2);
    assert file[..16] == file[0..16];
    Cut(file, 0, 16, 18);
    Cut(file, 0, 18, 20);
    Cut(file, 0, 20, 24);
    Cut(file, 0, 24, 32);
    Cut(file, 0, 32, 40);
    Cut(file, 0, 40, 48);
    Cut(file, 0, 48, 52);
    Cut(file, 0, 52, 54);
    Cut(file, 0, 54, 56);
    Cut(file, 0, 56, 58);
    Cut(file, 0, 58, 60);
    Cut(file, 0, 60, 62);
    Cut(file, 0, 62, 64);
  }

  lemma Cut(file: seq<Byte>, a: nat, b: nat, c: nat)
    requires a <= b <= c <= |file|
    ensures file[a..b] + file[b..c] == file[a..c]
  {
  }

  lemma ProgramWritesBack(file: seq<Byte>, at: nat)
    requires at + 56 <= |file|
    ensures ProgramOk(ProgramOf(file, at)) && HeaderAt(file, at, ProgramOf(file, at))
  {
    hide Encode, LittleEndian, Fits;
    WritesBack(file, at, 4);
    WritesBack(file, at + 4, 4);
    WritesBack(file, at + 8, 8);
    WritesBack(file, at + 16, 8);
    WritesBack(file, at + 24, 8);
    WritesBack(file, at + 32, 8);
    WritesBack(file, at + 40, 8);
    WritesBack(file, at + 48, 8);
    Cut(file, at, at + 4, at + 8);
    Cut(file, at, at + 8, at + 16);
    Cut(file, at, at + 16, at + 24);
    Cut(file, at, at + 24, at + 32);
    Cut(file, at, at + 32, at + 40);
    Cut(file, at, at + 40, at + 48);
    Cut(file, at, at + 48, at + 56);
  }

  /** A file with the magic number that has room for its program headers has a description. */
  lemma HasDescription(file: seq<Byte>) returns (h: FileHeader, ps: seq<Program>)
    requires HeaderFits(file) && file[0] == 0x7F
    requires forall i | 0 <= i < SegmentCount(file) :: ProgramHeader(file, i) + 56 <= |file|
    ensures Describes(file, h, ps)
  {
    hide Encode, LittleEndian, Fits, EncodeHeader, HeaderOk, ProgramOk, HeaderAt, HeaderStart, ProgramHeader;
    h := HeaderOf(file);
    HeaderWritesBack(file);
    ps := seq(SegmentCount(file), i requires 0 <= i < SegmentCount(file) => ProgramOf(file, ProgramHeader(file, i)));
    forall i | 0 <= i < |ps| ensures ProgramOk(ps[i]) && HeaderAt(file, HeaderStart(h, i), ps[i]) {
      ReadStarts(file, h, i);
      ProgramWritesBack(file, ProgramHeader(file, i));
    }
  }

  /** The common layout: the file header, the program headers one after another, and the contents. */
  function Build(h: FileHeader, ps: seq<Program>, contents: seq<Byte>): seq<Byte>
    requires |h.ident| == 16
  {
    EncodeHeader(h) + EncodePrograms(ps) + contents
  }

  function EncodePrograms(ps: seq<Program>): (r: seq<Byte>)
    ensures |r| == 56 * |ps|
  {
    if ps == [] then [] else EncodePrograms(ps[..|ps| - 1]) + EncodeProgram(ps[|ps| - 1])
  }

  lemma {:induction false} ProgramsLie(ps: seq<Program>, i: nat)
    requires i < |ps|
    ensures EncodePrograms(ps)[56 * i..56 * i + 56] == EncodeProgram(ps[i])
    decreases |ps|
  {
    hide EncodeProgram;
    var n := |ps| - 1;
    var all, some, last := EncodePrograms(ps), EncodePrograms(ps[..n]), EncodeProgram(ps[n]);
    assert all == some + last && |some| == 56 * n;
    if i < n {
      ProgramsLie(ps[..n], i);
      assert all[56 * i..56 * i + 56] == some[56 * i..56 * i + 56];
    } else {
      assert all[56 * i..56 * i + 56] == last;
    }
  }

  /** Such a file is described by what it was built from. */
  lemma BuildDescribes(h: FileHeader, ps: seq<Program>, contents: seq<Byte>)
    requires HeaderOk(h) && h.programHeaders == 64 && h.entrySize == 56 && h.entryCount == |ps|
    requires forall p | p in ps :: ProgramOk(p)
    ensures Describes(Build(h, ps, contents), h, ps)
  {
    hide EncodeProgram, EncodeHeader, Fits, ProgramOk, EncodePrograms;
    var file := Build(h, ps, contents);
    forall i | 0 <= i < |ps| ensures ProgramOk(ps[i]) && HeaderAt(file, HeaderStart(h, i), ps[i]) {
      ProgramsLie(ps, i);
      assert file[64 + 56 * i..64 + 56 * i + 56] == EncodePrograms(ps)[56 * i..56 * i + 56];
    }
  }
}
