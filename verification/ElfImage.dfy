/** Program files: which ones the loader accepts, where their image goes, and what it holds. */
module ElfImage {
  import opened Bytes
  import opened PageRanges

  const HEADER_SIZE := 64
  const SEGMENT_SIZE := 56
  const ELF_MAGIC := 0x464C_457F
  const PT_LOAD := 1
  const IMAGE_BASE := 0x80_0000_0000
  const STACK_SIZE := 65536
  const STACK_TOP := 0x80_0010_0000
  const STACK_BASE := STACK_TOP - STACK_SIZE
  const STACK_GAP := 4096
  const IMAGE_LIMIT := STACK_BASE - STACK_GAP
  const ALL_ONES := 0xFFFF_FFFF_FFFF_FFFF

  /** `n` bytes at `offset`, least significant first. */
  function LittleEndian(file: seq<Byte>, offset: nat, n: nat): (v: nat)
    requires offset + n <= |file|
    decreases n
  {
    if n == 0 then 0 else file[offset] + 256 * LittleEndian(file, offset + 1, n - 1)
  }

  datatype Segment = Segment(kind: nat, offset: nat, vaddr: nat, filesz: nat, memsz: nat) {
    predicate Loads() { kind == PT_LOAD }

    predicate InFile(size: nat) {
      offset <= size && filesz <= size - offset && filesz <= memsz
    }

    predicate InRegion() {
      IMAGE_BASE <= vaddr < IMAGE_LIMIT && memsz <= IMAGE_LIMIT - vaddr
    }

    function Start(): nat { PageDown(vaddr) }

    function End(): nat { PageUp(vaddr + memsz) }

    predicate Covers(a: nat) { Loads() && vaddr <= a < vaddr + memsz }

    /** The byte the segment puts at an address it covers: from the file, then zeros. */
    function ByteAt(file: seq<Byte>, a: nat): Byte
      requires InFile(|file|) && Covers(a)
    {
      if a - vaddr < filesz then file[offset + (a - vaddr)] else 0
    }
  }

  /** What a segment's numbers are to be, and which byte of the file lies where. */
  lemma SegmentMeans(s: Segment, file: seq<Byte>, a: nat)
    ensures s.Loads() <==> s.kind == 1
    ensures s.InFile(|file|) <==> s.offset + s.filesz <= |file| && s.filesz <= s.memsz
    ensures s.InRegion() <==> 0x80_0000_0000 <= s.vaddr < 0x80_000E_F000 && s.vaddr + s.memsz <= 0x80_000E_F000
    ensures s.Covers(a) <==> s.kind == 1 && s.vaddr <= a < s.vaddr + s.memsz
    ensures s.InFile(|file|) && s.Covers(a) ==>
              s.ByteAt(file, a) == if a < s.vaddr + s.filesz then file[s.offset + (a - s.vaddr)] else 0
    ensures s.Start() == s.vaddr / 4096 * 4096 && s.End() == (s.vaddr + s.memsz + 4095) / 4096 * 4096
  {
  }

  function PageDown(a: nat): (r: nat)
    ensures r % PAGE_SIZE == 0 && r <= a < r + PAGE_SIZE
  {
    a / PAGE_SIZE * PAGE_SIZE
  }

  function PageUp(a: nat): (r: nat)
    ensures r % PAGE_SIZE == 0 && a <= r < a + PAGE_SIZE
  {
    (a + PAGE_SIZE - 1) / PAGE_SIZE * PAGE_SIZE
  }

  function Power(n: nat): nat {
    if n == 0 then 1 else 256 * Power(n - 1)
  }

  /** A number written is the number read. */
  lemma {:induction false} LittleEndianReads(file: seq<Byte>, offset: nat, v: nat, n: nat)
    requires offset + n <= |file| && file[offset..offset + n] == Le(v, n) && v < Power(n)
    ensures LittleEndian(file, offset, n) == v
    decreases n
  {
    if n > 0 {
      assert file[offset] == file[offset..offset + n][0] == v % 256;
      assert file[offset + 1..offset + n] == file[offset..offset + n][1..] == Le(v / 256, n - 1);
      LittleEndianReads(file, offset + 1, v / 256, n - 1);
    }
  }

  lemma Powers()
    ensures Power(2) == 0x1_0000 && Power(4) == 0x1_0000_0000 && Power(8) == 0x1_0000_0000_0000_0000
  {
    assert Power(1) == 256 && Power(3) == 0x100_0000;
    assert Power(5) == 0x100_0000_0000 && Power(6) == 0x1_0000_0000_0000 && Power(7) == 0x100_0000_0000_0000;
  }

  predicate HeaderOk(file: seq<Byte>) {
    && |file| >= HEADER_SIZE
    && LittleEndian(file, 0, 4) == ELF_MAGIC && file[4] == 2 && LittleEndian(file, 18, 2) == 62
    && LittleEndian(file, 54, 2) == SEGMENT_SIZE
    && LittleEndian(file, 32, 8) <= |file|
    && LittleEndian(file, 56, 2) * SEGMENT_SIZE <= |file| - LittleEndian(file, 32, 8)
  }

  function Count(file: seq<Byte>): nat
    requires HeaderOk(file)
  {
    LittleEndian(file, 56, 2)
  }

  function Entry(file: seq<Byte>): nat
    requires HeaderOk(file)
  {
    LittleEndian(file, 24, 8)
  }

  function SegmentAt(file: seq<Byte>, i: nat): Segment
    requires HeaderOk(file) && i < Count(file)
  {
    var at := LittleEndian(file, 32, 8) + i * SEGMENT_SIZE;
    assert (i + 1) * SEGMENT_SIZE <= Count(file) * SEGMENT_SIZE;
    Segment(LittleEndian(file, at, 4), LittleEndian(file, at + 8, 8), LittleEndian(file, at + 16, 8),
            LittleEndian(file, at + 32, 8), LittleEndian(file, at + 40, 8))
  }

  function Segments(file: seq<Byte>): (segments: seq<Segment>)
    requires HeaderOk(file)
    ensures |segments| == Count(file) && forall i: nat | i < |segments| :: segments[i] == SegmentAt(file, i)
  {
    seq(Count(file), i requires 0 <= i < Count(file) => SegmentAt(file, i))
  }

  /** The header of a 64-bit ELF file for this machine, as the ELF-64 object file format lays it
      out, from its magic number up to the number of program headers. */
  function EncodedHeader(ident: seq<Byte>, kind: nat, version: nat, entry: nat, phoff: nat, shoff: nat, flags: nat,
                         ehsize: nat, count: nat): seq<Byte>
    requires |ident| == 11
  {
    EncodedMagic(ident) + EncodedStart(kind, version, entry) + EncodedTables(phoff, shoff)
    + EncodedSizes(flags, ehsize, count)
  }

  function EncodedMagic(ident: seq<Byte>): (b: seq<Byte>)
    requires |ident| == 11
    ensures |b| == 16 && b[0..4] == [0x7F, 0x45, 0x4C, 0x46] && b[4] == 2
  {
    [0x7F, 0x45, 0x4C, 0x46, 2] + ident
  }

  function EncodedStart(kind: nat, version: nat, entry: nat): (b: seq<Byte>)
    ensures |b| == 16 && b[2..4] == Le(62, 2) && b[8..16] == Le(entry, 8)
  {
    Le(kind, 2) + Le(62, 2) + Le(version, 4) + Le(entry, 8)
  }

  function EncodedTables(phoff: nat, shoff: nat): (b: seq<Byte>)
    ensures |b| == 16 && b[0..8] == Le(phoff, 8)
  {
    Le(phoff, 8) + Le(shoff, 8)
  }

  function EncodedSizes(flags: nat, ehsize: nat, count: nat): (b: seq<Byte>)
    ensures |b| == 10 && b[6..8] == Le(56, 2) && b[8..10] == Le(count, 2)
  {
    Le(flags, 4) + Le(ehsize, 2) + Le(56, 2) + Le(count, 2)
  }

  function EncodedSegment(s: Segment, flags: nat, paddr: nat, align: nat): seq<Byte> {
    Le(s.kind, 4) + Le(flags, 4) + Le(s.offset, 8) + Le(s.vaddr, 8) + Le(paddr, 8) + Le(s.filesz, 8) + Le(s.memsz, 8)
    + Le(align, 8)
  }

  /** Such a header is accepted if its table of segments lies in the file, and read for what it
      says. */
  lemma HeaderReads(file: seq<Byte>, ident: seq<Byte>, kind: nat, version: nat, entry: nat, phoff: nat, shoff: nat,
                    flags: nat, ehsize: nat, count: nat)
    requires |ident| == 11 && entry < 0x1_0000_0000_0000_0000 && phoff < 0x1_0000_0000_0000_0000 && count < 0x1_0000
    requires |file| >= 64
             && file[..58] == EncodedHeader(ident, kind, version, entry, phoff, shoff, flags, ehsize, count)
    ensures HeaderOk(file) <==> phoff + 56 * count <= |file|
    ensures phoff + 56 * count <= |file| ==> Count(file) == count && Entry(file) == entry
  {
    HeaderParts(file[..58], ident, kind, version, entry, phoff, shoff, flags, ehsize, count);
    Powers();
    hide Le, Power, EncodedHeader, LittleEndian;
    Reads(file, 0, 0x464C_457F, 4);
    Reads(file, 18, 62, 2);
    Reads(file, 24, entry, 8);
    Reads(file, 32, phoff, 8);
    Reads(file, 54, 56, 2);
    Reads(file, 56, count, 2);
    assert file[4] == file[..58][4];
  }

  lemma Reads(file: seq<Byte>, offset: nat, v: nat, n: nat)
    requires |file| >= 64 && offset + n <= 58 && file[..58][offset..offset + n] == Le(v, n) && v < Power(n)
    ensures LittleEndian(file, offset, n) == v
  {
    assert file[..58][offset..offset + n] == file[offset..offset + n];
    LittleEndianReads(file, offset, v, n);
  }

  lemma HeaderParts(h: seq<Byte>, ident: seq<Byte>, kind: nat, version: nat, entry: nat, phoff: nat, shoff: nat,
                    flags: nat, ehsize: nat, count: nat)
    requires |ident| == 11 && h == EncodedHeader(ident, kind, version, entry, phoff, shoff, flags, ehsize, count)
    ensures |h| == 58 && h[0..4] == Le(0x464C_457F, 4) && h[4] == 2 && h[18..20] == Le(62, 2)
    ensures h[24..32] == Le(entry, 8) && h[32..40] == Le(phoff, 8) && h[54..56] == Le(56, 2)
            && h[56..58] == Le(count, 2)
  {
    hide *;
    LeFour(0x464C_457F);
    var start, file, tables, sizes := EncodedMagic(ident), EncodedStart(kind, version, entry),
      EncodedTables(phoff, shoff), EncodedSizes(flags, ehsize, count);
    HeaderIs(ident, kind, version, entry, phoff, shoff, flags, ehsize, count);
    FourPieces(h, start, file, tables, sizes);
    SliceOfSlice(h, 0, 16, 0, 4);
    SliceOfSlice(h, 16, 32, 2, 4);
    SliceOfSlice(h, 16, 32, 8, 16);
    SliceOfSlice(h, 32, 48, 0, 8);
    SliceOfSlice(h, 48, 58, 6, 8);
    SliceOfSlice(h, 48, 58, 8, 10);
    assert h[4] == h[0..16][4];
  }

  lemma HeaderIs(ident: seq<Byte>, kind: nat, version: nat, entry: nat, phoff: nat, shoff: nat, flags: nat,
                 ehsize: nat, count: nat)
    requires |ident| == 11
    ensures EncodedHeader(ident, kind, version, entry, phoff, shoff, flags, ehsize, count) ==
            EncodedMagic(ident) + EncodedStart(kind, version, entry) + EncodedTables(phoff, shoff)
            + EncodedSizes(flags, ehsize, count)
  {
    hide Le, EncodedMagic, EncodedStart, EncodedTables, EncodedSizes;
  }

  lemma FourPieces(h: seq<Byte>, a: seq<Byte>, b: seq<Byte>, c: seq<Byte>, d: seq<Byte>)
    requires h == a + b + c + d && |a| == 16 && |b| == 16 && |c| == 16 && |d| == 10
    ensures |h| == 58 && h[0..16] == a && h[16..32] == b && h[32..48] == c && h[48..58] == d
  {
  }

  /** So is every segment. */
  lemma SegmentReads(file: seq<Byte>, i: nat, s: Segment, flags: nat, paddr: nat, align: nat)
    requires HeaderOk(file) && i < Count(file)
    requires var at := LittleEndian(file, 32, 8) + i * 56;
             at + 56 <= |file| && file[at..at + 56] == EncodedSegment(s, flags, paddr, align)
    requires s.kind < 0x1_0000_0000 && s.offset < 0x1_0000_0000_0000_0000 && s.vaddr < 0x1_0000_0000_0000_0000
             && s.filesz < 0x1_0000_0000_0000_0000 && s.memsz < 0x1_0000_0000_0000_0000
    ensures SegmentAt(file, i) == s
  {
    var at := LittleEndian(file, 32, 8) + i * 56;
    SegmentParts(file[at..at + 56], s, flags, paddr, align);
    Powers();
    SegmentIs(file, i);
    hide Le, Power, EncodedSegment, LittleEndian, HeaderOk, Count, SegmentAt;
    ReadsAt(file, at, 0, s.kind, 4);
    ReadsAt(file, at, 8, s.offset, 8);
    ReadsAt(file, at, 16, s.vaddr, 8);
    ReadsAt(file, at, 32, s.filesz, 8);
    ReadsAt(file, at, 40, s.memsz, 8);
  }

  lemma SegmentIs(file: seq<Byte>, i: nat)
    requires HeaderOk(file) && i < Count(file)
    ensures var at := LittleEndian(file, 32, 8) + i * 56;
            at + 56 <= |file|
            && SegmentAt(file, i) == Segment(LittleEndian(file, at, 4), LittleEndian(file, at + 8, 8),
              LittleEndian(file, at + 16, 8), LittleEndian(file, at + 32, 8), LittleEndian(file, at + 40, 8))
  {
    assert (i + 1) * SEGMENT_SIZE <= Count(file) * SEGMENT_SIZE;
    hide LittleEndian;
  }

  lemma ReadsAt(file: seq<Byte>, at: nat, offset: nat, v: nat, n: nat)
    requires at + 56 <= |file| && offset + n <= 56 && file[at..at + 56][offset..offset + n] == Le(v, n) && v < Power(n)
    ensures LittleEndian(file, at + offset, n) == v
  {
    SliceOfSlice(file, at, at + 56, offset, offset + n);
    LittleEndianReads(file, at + offset, v, n);
  }

  lemma SliceOfSlice(s: seq<Byte>, a: nat, b: nat, c: nat, d: nat)
    requires a <= b <= |s| && c <= d <= b - a
    ensures s[a..b][c..d] == s[a + c..a + d]
  {
    assert forall k | 0 <= k < d - c :: s[a..b][c..d][k] == s[a + c..a + d][k];
  }

  lemma SegmentParts(h: seq<Byte>, s: Segment, flags: nat, paddr: nat, align: nat)
    requires h == EncodedSegment(s, flags, paddr, align)
    ensures |h| == 56 && h[0..4] == Le(s.kind, 4) && h[8..16] == Le(s.offset, 8) && h[16..24] == Le(s.vaddr, 8)
    ensures h[32..40] == Le(s.filesz, 8) && h[40..48] == Le(s.memsz, 8)
  {
    hide Le;
  }

  // ---------------------------------------------------------------- layout

  datatype Layout = Layout(base: nat, end: nat, entry: nat)

  datatype Verdict = Accepted(layout: Layout) | Invalid | TooLarge | OverlapsKernel

  /** The first thing wrong with one of the first `n` segments. */
  function Fault(segments: seq<Segment>, n: nat, size: nat): Option<Verdict>
    requires n <= |segments|
  {
    if n == 0 then None
    else
      var earlier, s := Fault(segments, n - 1, size), segments[n - 1];
      if earlier.Some? || !s.Loads() then earlier
      else if !s.InFile(size) then Some(Invalid)
      else if !s.InRegion() then Some(TooLarge)
      else None
  }

  predicate AnyLoads(segments: seq<Segment>, n: nat)
    requires n <= |segments|
  {
    exists i: nat :: i < n && segments[i].Loads()
  }

  function Lowest(segments: seq<Segment>, n: nat): nat
    requires n <= |segments|
  {
    if n == 0 then ALL_ONES
    else
      var low, s := Lowest(segments, n - 1), segments[n - 1];
      if s.Loads() && s.Start() < low then s.Start() else low
  }

  function Highest(segments: seq<Segment>, n: nat): nat
    requires n <= |segments|
  {
    if n == 0 then 0
    else
      var high, s := Highest(segments, n - 1), segments[n - 1];
      if s.Loads() && s.End() > high then s.End() else high
  }

  /** What the loader decides, without the tests that never fire. */
  function Judged(file: seq<Byte>, kernelEnd: nat): Verdict {
    if HeaderOk(file) then Decided(Segments(file), Entry(file), |file|, kernelEnd) else Invalid
  }

  function Decided(segments: seq<Segment>, entry: nat, size: nat, kernelEnd: nat): Verdict {
    var n := |segments|;
    var low, high := Lowest(segments, n), Highest(segments, n);
    if Fault(segments, n, size).Some? then Fault(segments, n, size).value
    else if !AnyLoads(segments, n) then Invalid
    else if low < kernelEnd then OverlapsKernel
    else if !(low <= entry < high) then Invalid
    else Accepted(Layout(low, high, entry))
  }

  lemma {:induction false} FaultMeans(segments: seq<Segment>, n: nat, size: nat)
    requires n <= |segments|
    ensures Fault(segments, n, size) == None <==>
              forall i: nat | i < n && segments[i].Loads() :: segments[i].InFile(size) && segments[i].InRegion()
  {
    if n > 0 { FaultMeans(segments, n - 1, size); }
  }

  /** The lowest page of the loaded segments, and no higher. */
  lemma {:induction false} LowestMeans(segments: seq<Segment>, n: nat, size: nat)
    requires n <= |segments| && Fault(segments, n, size) == None
    ensures forall i: nat | i < n && segments[i].Loads() :: Lowest(segments, n) <= segments[i].Start()
    ensures if AnyLoads(segments, n) then exists i: nat ::
            i < n && segments[i].Loads() && Lowest(segments, n) == segments[i].Start()
            else Lowest(segments, n) == ALL_ONES
  {
    if n > 0 {
      LowestMeans(segments, n - 1, size);
      FaultMeans(segments, n, size);
      if segments[n - 1].Loads() { assert segments[n - 1].InRegion(); }
    }
  }

  lemma {:induction false} HighestMeans(segments: seq<Segment>, n: nat, size: nat)
    requires n <= |segments| && Fault(segments, n, size) == None
    ensures forall i: nat | i < n && segments[i].Loads() :: segments[i].End() <= Highest(segments, n)
    ensures if AnyLoads(segments, n) then exists i: nat ::
            i < n && segments[i].Loads() && Highest(segments, n) == segments[i].End()
            else Highest(segments, n) == 0
  {
    if n > 0 {
      HighestMeans(segments, n - 1, size);
      FaultMeans(segments, n, size);
      if segments[n - 1].Loads() { assert segments[n - 1].InRegion(); }
    }
  }

  /** Every page of the layout lies in the image region, a gap below the stack. */
  predicate InGap(l: Layout) {
    && l.base % PAGE_SIZE == 0 && l.end % PAGE_SIZE == 0 && IMAGE_BASE <= l.base < l.end <= IMAGE_LIMIT
    && l.end + STACK_GAP <= STACK_BASE && l.base <= l.entry < l.end
  }

  /** Some loaded segment starts, or ends, where the image does. */
  predicate StartsAt(segments: seq<Segment>, a: nat) {
    exists i: nat :: i < |segments| && segments[i].Loads() && segments[i].Start() == a
  }

  predicate EndsAt(segments: seq<Segment>, a: nat) {
    exists i: nat :: i < |segments| && segments[i].Loads() && segments[i].End() == a
  }

  predicate AllFit(segments: seq<Segment>, size: nat) {
    forall i: nat | i < |segments| && segments[i].Loads() :: segments[i].InFile(size) && segments[i].InRegion()
  }

  predicate Inside(segments: seq<Segment>, base: nat, end: nat) {
    forall i: nat | i < |segments| && segments[i].Loads() ::
      base <= segments[i].vaddr && segments[i].vaddr + segments[i].memsz <= end
  }

  /** Exactly which files are accepted: those whose loaded segments fit the file and the region,
      stay off the kernel, and surround the entry point. */
  lemma AcceptedExactly(segments: seq<Segment>, entry: nat, size: nat, kernelEnd: nat)
    ensures Decided(segments, entry, size, kernelEnd).Accepted? <==>
              && AllFit(segments, size)
              && (forall i: nat | i < |segments| && segments[i].Loads() :: kernelEnd <= segments[i].Start())
              && (exists i: nat :: i < |segments| && segments[i].Loads() && segments[i].Start() <= entry)
              && (exists i: nat :: i < |segments| && segments[i].Loads() && entry < segments[i].End())
  {
    var n := |segments|;
    FaultMeans(segments, n, size);
    NotOverlap(segments, n, size);
    if Fault(segments, n, size) == None {
      LowestMeans(segments, n, size);
      HighestMeans(segments, n, size);
    }
    hide Fault, Lowest, Highest, PageUp, PageDown;
  }

  /** The image of an accepted file is as small as pages allow, holds every loaded segment, and
      passes the tests on its size that the source makes at the end. */
  lemma AcceptedMeans(segments: seq<Segment>, entry: nat, size: nat, kernelEnd: nat)
    requires Decided(segments, entry, size, kernelEnd).Accepted?
    ensures var l := Decided(segments, entry, size, kernelEnd).layout;
            && InGap(l) && l.entry == entry && AllFit(segments, size) && Inside(segments, l.base, l.end)
            && StartsAt(segments, l.base) && EndsAt(segments, l.end)
  {
    var n := |segments|;
    FaultMeans(segments, n, size);
    NotOverlap(segments, n, size);
    LowestMeans(segments, n, size);
    HighestMeans(segments, n, size);
    hide Fault, Lowest, Highest;
    EdgesFit(segments, n, size);
    hide PageUp, PageDown;
  }

  /** What is said of a file that is not accepted: the first loaded segment that does not fit the
      file makes it invalid, or the region too large; one that reaches down to the kernel overlaps
      it; all else is invalid. */
  lemma RefusedMeans(segments: seq<Segment>, entry: nat, size: nat, kernelEnd: nat)
    ensures var v := Decided(segments, entry, size, kernelEnd);
            && (forall i: nat | i < |segments| && FirstMisfit(segments, i, size) ::
                  v == if segments[i].InFile(size) then TooLarge else Invalid)
            && (AllFit(segments, size) ==>
                  if exists i: nat :: i < |segments| && segments[i].Loads() && segments[i].Start() < kernelEnd
                  then v == OverlapsKernel
                  else v.Accepted? || v == Invalid)
  {
    var n := |segments|;
    FaultMeans(segments, n, size);
    if Fault(segments, n, size) == None { LowestMeans(segments, n, size); }
    forall i: nat | i < n && FirstMisfit(segments, i, size)
      ensures Fault(segments, n, size) == Some(if segments[i].InFile(size) then TooLarge else Invalid)
    {
      FaultMeans(segments, i, size);
      FaultStays(segments, i + 1, n, size);
    }
    hide Fault, Lowest, Highest, PageUp, PageDown;
  }

  /** Segment `i` is the first one to be loaded that fits the file or the region badly. */
  predicate FirstMisfit(segments: seq<Segment>, i: nat, size: nat)
    requires i < |segments|
  {
    && segments[i].Loads() && !(segments[i].InFile(size) && segments[i].InRegion())
    && forall j: nat | j < i && segments[j].Loads() :: segments[j].InFile(size) && segments[j].InRegion()
  }

  lemma EdgesFit(segments: seq<Segment>, n: nat, size: nat)
    requires n == |segments| && forall i: nat | i < n && segments[i].Loads() ::
             segments[i].InFile(size) && segments[i].InRegion()
    ensures forall i: nat | i < n && segments[i].Loads() ::
              && IMAGE_BASE <= segments[i].Start() <= segments[i].vaddr && segments[i].Start() % PAGE_SIZE == 0
              && segments[i].vaddr + segments[i].memsz <= segments[i].End() <= IMAGE_LIMIT
                && segments[i].End() % PAGE_SIZE == 0
  {
    forall i: nat | i < n && segments[i].Loads()
      ensures IMAGE_BASE <= segments[i].Start() && segments[i].End() <= IMAGE_LIMIT
    {
      assert segments[i].InRegion();
    }
  }

  /** With the kernel below the image region, no file is said to overlap it. */
  lemma NeverOverlaps(file: seq<Byte>, kernelEnd: nat)
    requires kernelEnd <= IMAGE_BASE
    ensures Judged(file, kernelEnd) != OverlapsKernel
  {
    if HeaderOk(file) {
      var segments := Segments(file);
      NotOverlap(segments, |segments|, |file|);
      if Fault(segments, |segments|, |file|) == None {
        LowestMeans(segments, |segments|, |file|);
        FaultMeans(segments, |segments|, |file|);
        EdgesFit(segments, |segments|, |file|);
      }
      hide Segments, HeaderOk, Fault, Lowest, Highest, Entry, LittleEndian;
    }
  }

  lemma {:induction false} NotOverlap(segments: seq<Segment>, n: nat, size: nat)
    requires n <= |segments|
    ensures Fault(segments, n, size) != Some(OverlapsKernel)
    ensures Fault(segments, n, size).Some? ==> !Fault(segments, n, size).value.Accepted?
  {
    if n > 0 { NotOverlap(segments, n - 1, size); }
  }

  /** `process_configure_image_layout`: every test of the source is made, and the three on the
      finished layout change nothing. */
  method Configure(file: seq<Byte>, kernelEnd: nat) returns (verdict: Verdict)
    ensures verdict == Judged(file, kernelEnd)
  {
    if |file| < HEADER_SIZE {
      return Invalid;
    }
    if !HeaderOk(file) {
      return Invalid;
    }
    verdict := Lay(Segments(file), Entry(file), |file|, kernelEnd);
  }

  /** The loop over the segments, and the tests that follow it. */
  method Lay(segments: seq<Segment>, entry: nat, size: nat, kernelEnd: nat) returns (verdict: Verdict)
    ensures verdict == Decided(segments, entry, size, kernelEnd)
  {
    var low, high, any := ALL_ONES, 0, false;
    for index := 0 to |segments|
      invariant Fault(segments, index, size) == None
      invariant low == Lowest(segments, index) && high == Highest(segments, index) && any == AnyLoads(segments, index)
    {
      var s := segments[index];
      FaultStays(segments, index + 1, |segments|, size);
      hide PageDown, PageUp;
      if !s.Loads() {
        continue;
      }
      if s.offset > size || s.filesz > size - s.offset || s.filesz > s.memsz {
        return Invalid;
      }
      if s.vaddr < IMAGE_BASE || s.vaddr >= IMAGE_LIMIT || s.memsz > IMAGE_LIMIT - s.vaddr {
        return TooLarge;
      }
      any := true;
      if s.Start() < low {
        low := s.Start();
      }
      if s.End() > high {
        high := s.End();
      }
    }
    if !any {
      return Invalid;
    }
    if low < kernelEnd {
      return OverlapsKernel;
    }
    if entry < low || entry >= high {
      return Invalid;
    }
    AcceptedMeans(segments, entry, size, kernelEnd);
    hide Lowest, Highest, Fault;
    verdict := Accepted(Layout(low, high, entry));
    if high <= low {
      verdict := Invalid;
    }
    if low < IMAGE_BASE || high > IMAGE_LIMIT {
      verdict := TooLarge;
    }
    if high + STACK_GAP > STACK_BASE {
      verdict := TooLarge;
    }
  }

  lemma {:induction false} FaultStays(segments: seq<Segment>, m: nat, n: nat, size: nat)
    requires m <= n <= |segments|
    ensures Fault(segments, m, size).Some? ==> Fault(segments, n, size) == Fault(segments, m, size)
  {
    if m < n { FaultStays(segments, m, n - 1, size); }
  }

  // ---------------------------------------------------------------- image

  predicate AllInFile(segments: seq<Segment>, n: nat, size: nat)
    requires n <= |segments|
  {
    forall i: nat | i < n && segments[i].Loads() :: segments[i].InFile(size)
  }

  /** What the first `n` segments, copied in turn over zeros, leave at address `a`. */
  function Loaded(file: seq<Byte>, segments: seq<Segment>, n: nat, a: nat): Byte
    requires n <= |segments| && AllInFile(segments, n, |file|)
  {
    if n == 0 then 0
    else if segments[n - 1].Covers(a) then segments[n - 1].ByteAt(file, a)
    else Loaded(file, segments, n - 1, a)
  }

  /** An address no segment covers holds zero. */
  lemma {:induction false} LoadedNone(file: seq<Byte>, segments: seq<Segment>, n: nat, a: nat)
    requires n <= |segments| && AllInFile(segments, n, |file|) && forall i: nat | i < n :: !segments[i].Covers(a)
    ensures Loaded(file, segments, n, a) == 0
  {
    if n > 0 { LoadedNone(file, segments, n - 1, a); }
  }

  /** Where segments overlap, the last of them decides. */
  lemma {:induction false} LoadedLast(file: seq<Byte>, segments: seq<Segment>, n: nat, j: nat, a: nat)
    requires j < n <= |segments| && AllInFile(segments, n, |file|)
    requires segments[j].Covers(a) && forall i: nat | j < i < n :: !segments[i].Covers(a)
    ensures Loaded(file, segments, n, a) == segments[j].ByteAt(file, a)
    decreases n
  {
    if n > j + 1 { LoadedLast(file, segments, n - 1, j, a); }
  }

  /** `k_memset` with zero. */
  method Clear(image: array<Byte>, at: nat, n: nat)
    requires at + n <= image.Length
    modifies image
    ensures forall i: nat | i < image.Length :: image[i] == if at <= i < at + n then 0 else old(image[i])
  {
    for j := 0 to n
      invariant forall i: nat | i < image.Length :: image[i] == if at <= i < at + j then 0 else old(image[i])
    {
      image[at + j] := 0;
    }
  }

  /** `k_memcpy` out of the file. */
  method CopyIn(image: array<Byte>, at: nat, file: seq<Byte>, offset: nat, n: nat)
    requires at + n <= image.Length && offset + n <= |file|
    modifies image
    ensures forall i: nat | i < image.Length :: image[i] == if at <= i < at + n then file[offset + (i - at)]
            else old(image[i])
  {
    for j := 0 to n
      invariant forall i: nat | i < image.Length :: image[i] == if at <= i < at + j then file[offset + (i - at)]
                else old(image[i])
    {
      image[at + j] := file[offset + j];
    }
  }

  /** `process_copy_image_segments`; `image` is the memory mapped from `base` on.  Given segments
      that lie in the image, no write leaves it, and afterwards it holds the segments in turn over
      zeros. */
  method CopySegments(file: seq<Byte>, segments: seq<Segment>, base: nat, image: array<Byte>) returns (ok: bool)
    requires Inside(segments, base, base + image.Length)
    modifies image
    ensures ok <==> AllInFile(segments, |segments|, |file|)
    ensures ok ==> forall i: nat | i < image.Length :: image[i] == Loaded(file, segments, |segments|, base + i)
  {
    Clear(image, 0, image.Length);
    for index := 0 to |segments|
      invariant AllInFile(segments, index, |file|)
      invariant forall i: nat | i < image.Length :: image[i] == Loaded(file, segments, index, base + i)
    {
      var s := segments[index];
      if !s.Loads() {
        continue;
      }
      if s.offset > |file| || s.filesz > |file| - s.offset || s.filesz > s.memsz {
        return false;
      }
      CopySegment(file, segments, index, base, image);
    }
    ok := true;
  }

  /** One segment's copy. */
  method CopySegment(file: seq<Byte>, segments: seq<Segment>, index: nat, base: nat, image: array<Byte>)
    requires index < |segments| && AllInFile(segments, index + 1, |file|) && AllInFile(segments, index, |file|)
             && segments[index].Loads()
    requires base <= segments[index].vaddr && segments[index].vaddr + segments[index].memsz <= base + image.Length
    requires forall i: nat | i < image.Length :: image[i] == Loaded(file, segments, index, base + i)
    modifies image
    ensures forall i: nat | i < image.Length :: image[i] == Loaded(file, segments, index + 1, base + i)
  {
    var s := segments[index];
    ghost var before := image[..];
    Clear(image, s.vaddr - base, s.memsz);
    CopyIn(image, s.vaddr - base, file, s.offset, s.filesz);
    forall i: nat | i < image.Length ensures image[i] == Loaded(file, segments, index + 1, base + i) {
      assert before[i] == Loaded(file, segments, index, base + i);
    }
  }

  /** An accepted file is copied in full, inside its image. */
  lemma AcceptedCopies(file: seq<Byte>, kernelEnd: nat)
    requires Judged(file, kernelEnd).Accepted?
    ensures var l := Judged(file, kernelEnd).layout;
            && HeaderOk(file) && InGap(l) && l.entry == Entry(file) && Inside(Segments(file), l.base, l.end)
            && AllInFile(Segments(file), |Segments(file)|, |file|)
  {
    AcceptedMeans(Segments(file), Entry(file), |file|, kernelEnd);
    hide Decided;
  }
}
