/** The page-frame allocator: `g_free_ranges` edited in place. */
module PageFrames {
  import opened Bytes
  import opened PageRanges

  const RESERVED_LOW_END: nat := 0x10_0000
  const PROCESS_REGION_START: nat := 0x80_0000_0000
  const PROCESS_REGION_END: nat := 0x80_0010_0000

  function AlignDown(value: nat): (r: nat)
    ensures r % PAGE_SIZE == 0 && r <= value < r + PAGE_SIZE
  {
    value / PAGE_SIZE * PAGE_SIZE
  }

  /** Rounding up, in machine arithmetic. */
  function AlignUp(value: nat): (r: nat)
    ensures r % PAGE_SIZE == 0
  {
    (value + PAGE_SIZE - 1) % WORD / PAGE_SIZE * PAGE_SIZE
  }

  /** Rounding up does round up, except in the last page of the machine word: there it wraps to 0. */
  lemma AlignUpExact(value: nat)
    requires value < WORD
    ensures value + PAGE_SIZE - 1 < WORD ==> value <= AlignUp(value) < value + PAGE_SIZE
    ensures value + PAGE_SIZE - 1 >= WORD ==> AlignUp(value) == 0
  {
    if value + PAGE_SIZE - 1 >= WORD {
      assert (value + PAGE_SIZE - 1) % WORD == value + PAGE_SIZE - 1 - WORD;
    }
  }

  const CONVENTIONAL := 7

  /** One entry of the firmware's memory map. */
  datatype Descriptor = Descriptor(kind: nat, start: nat, pages: nat)

  /** Its end, in machine arithmetic. */
  function DescriptorEnd(d: Descriptor): (end: nat)
    ensures end < WORD
  {
    (d.start + d.pages * PAGE_SIZE) % WORD
  }

  /** Start addresses are machine words. */
  predicate Reported(report: seq<Descriptor>) {
    forall i: nat | i < |report| :: report[i].start < WORD
  }

  /** Address `a` lies in a whole page of [start, end) below 4 GiB. */
  ghost predicate Clipped(start: nat, end: nat, a: nat) {
    start < MAX_PHYS && AlignUp(start) <= a < AlignDown(if end > MAX_PHYS then MAX_PHYS else end)
  }

  ghost predicate Offers(d: Descriptor, a: nat) {
    d.kind == CONVENTIONAL && Clipped(d.start, DescriptorEnd(d), a)
  }

  ghost predicate Offered(report: seq<Descriptor>, n: nat, a: nat) {
    exists i: nat :: i < n && i < |report| && Offers(report[i], a)
  }

  /** The firmware reports no page twice. */
  ghost predicate Disjoint(report: seq<Descriptor>) {
    forall i: nat, j: nat, a: nat | i < j < |report| && Offers(report[i], a) :: !Offers(report[j], a)
  }

  /** The intervals start-up keeps back. */
  ghost predicate Kept(kernelStart: nat, kernelEnd: nat, frame: Option<(nat, nat)>, a: nat) {
    || Within(AlignDown(0), AlignUp(RESERVED_LOW_END), a)
    || Within(AlignDown(kernelStart), AlignUp(kernelEnd), a)
    || Within(AlignDown(PROCESS_REGION_START), AlignUp(PROCESS_REGION_END), a)
    || (frame.Some? && Within(AlignDown(frame.value.0), AlignUp((frame.value.0 + frame.value.1) % WORD), a))
  }

  /** Page `p` meets the interval. */
  predicate Meets(p: nat, start: nat, end: nat) {
    p * 4096 < end && start < (p + 1) * 4096 && start < end
  }

  /** What is kept back are the pages that meet the first megabyte, the kernel, the 1 MiB of the
      process region, or the frame buffer. */
  lemma KeptExactly(kernelStart: nat, kernelEnd: nat, frame: Option<(nat, nat)>, p: nat)
    requires kernelStart < kernelEnd && kernelEnd + 4095 < WORD
    requires frame.Some? ==> 0 < frame.value.1 && frame.value.0 + frame.value.1 + 4095 < WORD
    ensures forall a: nat | p * 4096 <= a < (p + 1) * 4096 ::
              Kept(kernelStart, kernelEnd, frame, a) <==>
              || Meets(p, 0, 0x10_0000) || Meets(p, kernelStart, kernelEnd)
              || Meets(p, 0x80_0000_0000, 0x80_0010_0000)
              || (frame.Some? && Meets(p, frame.value.0, frame.value.0 + frame.value.1))
  {
    hide *;
    forall a: nat | p * 4096 <= a < (p + 1) * 4096
      ensures Kept(kernelStart, kernelEnd, frame, a) <==>
              || Meets(p, 0, 0x10_0000) || Meets(p, kernelStart, kernelEnd)
              || Meets(p, 0x80_0000_0000, 0x80_0010_0000)
              || (frame.Some? && Meets(p, frame.value.0, frame.value.0 + frame.value.1))
    {
      KeptIs(kernelStart, kernelEnd, frame, a);
      RoundedMeets(0, 0x10_0000, p, a);
      RoundedMeets(kernelStart, kernelEnd, p, a);
      RoundedMeets(0x80_0000_0000, 0x80_0010_0000, p, a);
      if frame.Some? { RoundedMeets(frame.value.0, frame.value.0 + frame.value.1, p, a); }
    }
  }

  lemma KeptIs(kernelStart: nat, kernelEnd: nat, frame: Option<(nat, nat)>, a: nat)
    ensures WORD > 0x80_0010_0000 + 4095
    ensures (frame.Some? ==> frame.value.0 + frame.value.1 + 4095 < WORD) ==>
              (Kept(kernelStart, kernelEnd, frame, a) <==>
               || Within(AlignDown(0), AlignUp(0x10_0000), a) || Within(AlignDown(kernelStart), AlignUp(kernelEnd), a)
               || Within(AlignDown(0x80_0000_0000), AlignUp(0x80_0010_0000), a)
               || (frame.Some? && Within(AlignDown(frame.value.0), AlignUp(frame.value.0 + frame.value.1), a)))
  {
    hide AlignDown, AlignUp, Within;
  }

  lemma RoundedMeets(start: nat, end: nat, p: nat, a: nat)
    requires p * 4096 <= a < (p + 1) * 4096 && start < end && end + 4095 < WORD
    ensures Within(AlignDown(start), AlignUp(end), a) <==> Meets(p, start, end)
  {
    assert a / 4096 == p;
    assert (end + 4095) % WORD == end + 4095;
  }

  lemma ClipMeans(start: nat, end: nat, lo: nat, hi: nat)
    requires start < MAX_PHYS && lo == AlignUp(start) && hi == AlignDown(if end > MAX_PHYS then MAX_PHYS else end)
             && lo < hi
    ensures lo + (hi - lo) / PAGE_SIZE * PAGE_SIZE == hi && (hi - lo) / PAGE_SIZE > 0
    ensures forall a: nat :: Clipped(start, end, a) <==> lo <= a < hi
  {
  }

  lemma NothingOffered(report: seq<Descriptor>, rs: seq<Range>)
    requires rs == []
    ensures Canonical(rs) && forall a: nat :: Holds(rs, a) <==> Offered(report, 0, a)
  {
    forall a: nat ensures !Holds(rs, a) { HoldsNone(a); }
  }

  lemma OneMoreOffered(report: seq<Descriptor>, i: nat)
    requires i < |report| && Disjoint(report) && Reported(report)
    ensures forall a: nat :: Offered(report, i + 1, a) <==> Offered(report, i, a) || Offers(report[i], a)
    ensures forall a: nat | Offers(report[i], a) :: !Offered(report, i, a)
    ensures report[i].pages == 0 ==> forall a: nat :: !Offers(report[i], a)
  {
    hide Offers;
    forall a: nat ensures Offered(report, i + 1, a) <==> Offered(report, i, a) || Offers(report[i], a) {
      if Offered(report, i + 1, a) {
        var k: nat :| k < i + 1 && k < |report| && Offers(report[k], a);
        assert k < i ==> Offered(report, i, a);
      }
    }
    NoPages(report[i]);
  }

  lemma OffersMeans(d: Descriptor)
    ensures forall a: nat :: Offers(d, a) <==> d.kind == CONVENTIONAL && Clipped(d.start, DescriptorEnd(d), a)
  {
    hide Clipped, DescriptorEnd;
  }

  lemma NoPages(d: Descriptor)
    requires d.start < WORD
    ensures d.pages == 0 ==> forall a: nat :: !Offers(d, a)
  {
    if d.pages == 0 && d.start < MAX_PHYS {
      assert DescriptorEnd(d) == d.start;
      AlignUpExact(d.start);
    }
  }

  /** A descriptor whose end fits the machine word offers exactly its whole pages below 4 GiB. */
  lemma OffersPlainly(d: Descriptor, a: nat)
    requires d.start + d.pages * PAGE_SIZE < WORD
    ensures Offers(d, a) <==>
              && d.kind == CONVENTIONAL && d.start <= AlignDown(a)
                && AlignDown(a) + PAGE_SIZE <= d.start + d.pages * PAGE_SIZE
              && a < MAX_PHYS
  {
    if d.start < MAX_PHYS {
      AlignUpExact(d.start);
      Whole(d.start, AlignUp(d.start), d.start + d.pages * PAGE_SIZE, a);
    }
  }

  lemma Whole(start: nat, up: nat, end: nat, a: nat)
    requires up % PAGE_SIZE == 0 && start <= up < start + PAGE_SIZE
    ensures up <= a < AlignDown(if end > MAX_PHYS then MAX_PHYS else end) <==>
              start <= AlignDown(a) && AlignDown(a) + PAGE_SIZE <= end && a < MAX_PHYS
  {
  }

  // ---------------------------------------------------- start-up as a value

  /** `add_descriptor_range` on the array as a value. */
  function AddedRange(rs: seq<Range>, start: nat, end: nat): Outcome {
    var lo, hi := AlignUp(start), AlignDown(if end > MAX_PHYS then MAX_PHYS else end);
    if start >= MAX_PHYS || hi <= lo then Now(rs) else Appended(rs, lo, (hi - lo) / PAGE_SIZE)
  }

  /** The array after the first `n` descriptors. */
  function Gathered(report: seq<Descriptor>, n: nat): Outcome
    requires n <= |report|
  {
    if n == 0 then Now([])
    else
      var d := report[n - 1];
      match Gathered(report, n - 1)
      case Refused => Refused
      case Now(rs) => if d.kind != CONVENTIONAL || d.pages == 0 then Now(rs)
        else AddedRange(rs, d.start, DescriptorEnd(d))
  }

  /** Whenever a range has to be split, the array as it is then has room for one more. */
  predicate RoomToSplit(rs: seq<Range>, lo: nat, hi: nat) {
    forall j: nat | j < |rs| && |Cut(rs[j], lo, hi)| == 2 :: |Reserved(rs[..j], lo, hi)| + |rs[j..]| < MAX_RANGES
  }

  /** The same for the first `n` ranges. */
  ghost predicate SplitsFit(rs: seq<Range>, lo: nat, hi: nat, n: nat) {
    forall j: nat | j < n && j < |rs| && |Cut(rs[j], lo, hi)| == 2 ::
      |Reserved(rs[..j], lo, hi)| + |rs[j..]| < MAX_RANGES
  }

  lemma SplitsFitAll(rs: seq<Range>, lo: nat, hi: nat)
    ensures SplitsFit(rs, lo, hi, 0) && (SplitsFit(rs, lo, hi, |rs|) <==> RoomToSplit(rs, lo, hi))
  {
    hide Cut, Reserved;
  }

  lemma SplitsFitNext(rs: seq<Range>, lo: nat, hi: nat, j: nat)
    requires SplitsFit(rs, lo, hi, j) && j < |rs|
    ensures |Cut(rs[j], lo, hi)| < 2 || |Reserved(rs[..j], lo, hi)| + |rs[j..]| < MAX_RANGES ==>
              SplitsFit(rs, lo, hi, j + 1)
    ensures |Cut(rs[j], lo, hi)| >= 2 && |Reserved(rs[..j], lo, hi)| + |rs[j..]| >= MAX_RANGES ==>
              !RoomToSplit(rs, lo, hi)
  {
    CutFew(rs[j], lo, hi);
    hide Cut, Reserved;
  }

  /** `reserve_range` on the array as a value. */
  function KeptFrom(o: Outcome, start: nat, end: nat): Outcome {
    match o
    case Refused => Refused
    case Now(rs) =>
      var lo, hi := AlignDown(start), AlignUp(end);
      if lo >= hi then Now(rs) else if RoomToSplit(rs, lo, hi) then Now(Reserved(rs, lo, hi)) else Refused
  }

  lemma RefusedStays()
    ensures forall start, end :: KeptFrom(Refused, start, end) == Refused
  {
  }

  /** A memory map that offers four pages twice. */
  const OverlappingMap := [Descriptor(CONVENTIONAL, 0x100_0000, 16), Descriptor(CONVENTIONAL, 0x100_4000, 4)]

  const OverlappingRanges := [Range(0x100_0000, 16), Range(0x100_4000, 4)]

  /** It is accepted, but its array is not canonical: the page at 0x100_4000 is handed out twice. */
  lemma OverlapHandsOutTwice()
    ensures Reported(OverlappingMap)
    ensures Started(OverlappingMap, 0x10_0000, 0x10_0000, None) == Now(OverlappingRanges)
    ensures !Canonical(OverlappingRanges)
    ensures FirstFit(OverlappingRanges, 16) == 0 && InRange(OverlappingRanges[0], 0x100_4000)
            && Taken(OverlappingRanges, 16) == [Range(0x100_4000, 4)] && FirstFit([Range(0x100_4000, 4)], 4) == 0
  {
    OverlapTaken();
    OverlapIntervals();
    hide *;
    OverlapGathered();
    OverlapKept(0, RESERVED_LOW_END);
    OverlapKept(0x10_0000, 0x10_0000);
    OverlapKept(PROCESS_REGION_START, PROCESS_REGION_END);
    StartedIs(OverlappingMap, 0x10_0000, 0x10_0000, None);
    KeptBackNoFrame(Gathered(OverlappingMap, |OverlappingMap|), 0x10_0000, 0x10_0000);
  }

  lemma OverlapIntervals()
    ensures Reported(OverlappingMap) && AlignUp(RESERVED_LOW_END) <= 0x100_0000 && AlignUp(0x10_0000) <= 0x100_0000
    ensures AlignDown(PROCESS_REGION_START) >= 0x200_0000
  {
  }

  lemma KeptBackNoFrame(o: Outcome, kernelStart: nat, kernelEnd: nat)
    ensures KeptBack(o, kernelStart, kernelEnd, None) ==
            KeptFrom(KeptFrom(KeptFrom(o, 0, RESERVED_LOW_END), kernelStart, kernelEnd), PROCESS_REGION_START,
              PROCESS_REGION_END)
  {
    hide KeptFrom;
  }

  lemma OverlapTaken()
    ensures !Canonical(OverlappingRanges)
    ensures FirstFit(OverlappingRanges, 16) == 0 && InRange(OverlappingRanges[0], 0x100_4000)
            && Taken(OverlappingRanges, 16) == [Range(0x100_4000, 4)] && FirstFit([Range(0x100_4000, 4)], 4) == 0
  {
    assert OverlappingRanges[0].End() > OverlappingRanges[1].base;
    assert OverlappingRanges[1..] == [Range(0x100_4000, 4)];
  }

  lemma OverlapGathered()
    ensures Gathered(OverlappingMap, |OverlappingMap|) == Now(OverlappingRanges)
  {
    OverlapEnds();
    hide *;
    GatheredNone(OverlappingMap);
    GatheredNext(OverlappingMap, 0);
    GatheredNext(OverlappingMap, 1);
    FirstAdded();
    SecondAdded();
  }

  lemma OverlapEnds()
    ensures |OverlappingMap| == 2
    ensures OverlappingMap[0] == Descriptor(CONVENTIONAL, 0x100_0000, 16)
            && OverlappingMap[1] == Descriptor(CONVENTIONAL, 0x100_4000, 4)
    ensures DescriptorEnd(OverlappingMap[0]) == 0x101_0000 && DescriptorEnd(OverlappingMap[1]) == 0x100_8000
  {
  }

  lemma FirstAdded()
    ensures AddedRange([], 0x100_0000, 0x101_0000) == Now([Range(0x100_0000, 16)])
  {
    assert InsertPoint([], 0x100_0000) == 0;
    assert Grown([], 0, 0x100_0000, 16) == [Range(0x100_0000, 16)];
  }

  lemma SecondAdded()
    ensures AddedRange([Range(0x100_0000, 16)], 0x100_4000, 0x100_8000) == Now(OverlappingRanges)
  {
    var first := Range(0x100_0000, 16);
    assert [first][1..] == [] && InsertPoint([first], 0x100_4000) == 1;
    assert Grown([first], 1, 0x100_4000, 4) == [first] + [Range(0x100_4000, 4)];
  }

  lemma OverlapKept(start: nat, end: nat)
    requires AlignDown(start) >= 0x200_0000 || AlignUp(end) <= 0x100_0000
    ensures KeptFrom(Now(OverlappingRanges), start, end) == Now(OverlappingRanges)
  {
    var lo, hi := AlignDown(start), AlignUp(end);
    hide AlignDown, AlignUp;
    if lo < hi {
      ReservedAside(OverlappingRanges, lo, hi);
      assert forall j: nat | j < |OverlappingRanges| :: |Cut(OverlappingRanges[j], lo, hi)| == 1;
    }
    hide Reserved;
  }

  /** In a canonical array at most one range is split, so it is refused exactly when what would be
      left takes more than 256 ranges. */
  lemma RoomCanonical(rs: seq<Range>, lo: nat, hi: nat)
    requires Canonical(rs) && |rs| <= MAX_RANGES && lo < hi
    ensures RoomToSplit(rs, lo, hi) <==> |Reserved(rs, lo, hi)| <= MAX_RANGES
  {
    hide Canonical, Cut, Reserved;
    forall j: nat | j < |rs| && |Cut(rs[j], lo, hi)| == 2
      ensures |Reserved(rs[..j], lo, hi)| + |rs[j..]| == |rs| && |Reserved(rs, lo, hi)| == |rs| + 1
    {
      SplitIsAlone(rs, lo, hi, j);
    }
    if forall j: nat | j < |rs| :: |Cut(rs[j], lo, hi)| != 2 {
      ReservedShort(rs, lo, hi);
    }
  }

  lemma {:induction false} ReservedShort(rs: seq<Range>, lo: nat, hi: nat)
    requires forall j: nat | j < |rs| :: |Cut(rs[j], lo, hi)| != 2
    ensures |Reserved(rs, lo, hi)| <= |rs|
  {
    if rs != [] {
      ReservedShort(rs[1..], lo, hi);
      CutFew(rs[0], lo, hi);
    }
  }

  lemma CutFew(r: Range, lo: nat, hi: nat)
    ensures |Cut(r, lo, hi)| <= 2
  {
  }

  /** The array start-up arrives at. */
  function Started(report: seq<Descriptor>, kernelStart: nat, kernelEnd: nat, frame: Option<(nat, nat)>): Outcome {
    KeptBack(Gathered(report, |report|), kernelStart, kernelEnd, frame)
  }

  function KeptBack(o: Outcome, kernelStart: nat, kernelEnd: nat, frame: Option<(nat, nat)>): Outcome {
    var kept := KeptFrom(KeptFrom(KeptFrom(o, 0, RESERVED_LOW_END), kernelStart, kernelEnd), PROCESS_REGION_START,
      PROCESS_REGION_END);
    if frame.None? then kept else KeptFrom(kept, frame.value.0, (frame.value.0 + frame.value.1) % WORD)
  }

  lemma StartedIs(report: seq<Descriptor>, kernelStart: nat, kernelEnd: nat, frame: Option<(nat, nat)>)
    ensures Started(report, kernelStart, kernelEnd, frame) == KeptBack(Gathered(report, |report|), kernelStart,
            kernelEnd, frame)
    ensures Gathered(report, |report|) == Refused ==> Started(report, kernelStart, kernelEnd, frame) == Refused
  {
    hide Gathered;
  }

  lemma GatheredNone(report: seq<Descriptor>)
    ensures Gathered(report, 0) == Now([])
  {
  }

  lemma GatheredNext(report: seq<Descriptor>, i: nat)
    requires i < |report|
    ensures Gathered(report, i + 1) ==
            match Gathered(report, i)
            case Refused => Refused
            case Now(rs) =>
              if report[i].kind != CONVENTIONAL || report[i].pages == 0 then Now(rs)
              else AddedRange(rs, report[i].start, DescriptorEnd(report[i]))
  {
    hide AddedRange, DescriptorEnd;
  }

  lemma {:induction false} GatheredStays(report: seq<Descriptor>, i: nat, n: nat)
    requires i <= n <= |report| && Gathered(report, i) == Refused
    ensures Gathered(report, n) == Refused
  {
    if i < n {
      GatheredStays(report, i, n - 1);
      GatheredNext(report, n - 1);
    }
  }

  /** A descriptor is refused exactly when it has pages to add and the array is full. */
  lemma GatherRefuses(rs: seq<Range>, start: nat, end: nat)
    requires Canonical(rs) && forall a: nat | Clipped(start, end, a) :: !Holds(rs, a)
    ensures AddedRange(rs, start, end).Refused? <==> |rs| >= MAX_RANGES && exists a: nat :: Clipped(start, end, a)
  {
    hide Holds, Canonical, Appended, ClearBehind, AlignUp, AlignDown;
    var lo, hi := AlignUp(start), AlignDown(if end > MAX_PHYS then MAX_PHYS else end);
    if start < MAX_PHYS && lo < hi {
      ClipMeans(start, end, lo, hi);
      assert Clipped(start, end, lo);
      ClearIsClear(rs, lo, (hi - lo) / PAGE_SIZE);
      AppendRefuses(rs, lo, (hi - lo) / PAGE_SIZE);
    }
  }

  class Allocator {
    const ranges: array<Range>
    var count: nat
    var total: nat
    var ready: bool
    ghost var lost: seq<Range>   // blocks handed back while the array was full

    predicate Shaped()
      reads this
    {
      ranges.Length == MAX_RANGES && count <= MAX_RANGES
    }

    function View(): (rs: seq<Range>)
      requires Shaped()
      reads this, ranges
      ensures |rs| == count
    {
      ranges[..count]
    }

    /** The array is the canonical form of the free pages. */
    ghost predicate Valid()
      reads this, ranges
    {
      Shaped() && Canonical(View())
    }

    constructor ()
      ensures Valid() && View() == [] && !ready && lost == [] && fresh(ranges)
    {
      ranges := new Range[MAX_RANGES](_ => Range(0, 0));
      count, total, ready, lost := 0, 0, false, [];
    }

    /** Shifts everything behind `index` down by one. */
    method RemoveAt(index: nat)
      requires Shaped() && index < count
      modifies this`count, ranges
      ensures Shaped() && View() == old(View())[..index] + old(View())[index + 1..]
    {
      var i := index;
      while i + 1 < count
        invariant count == old(count) && index <= i < count
        invariant forall k | 0 <= k < count :: ranges[k] == old(ranges[if index <= k < i then k + 1 else k])
      {
        ranges[i] := ranges[i + 1];
        i := i + 1;
      }
      count := count - 1;
      GapClosed(old(View()), View(), index);
    }

    /** Shifts everything from `index` up by one and stores `r` there. */
    method InsertAt(index: nat, r: Range)
      requires Shaped() && index <= count < MAX_RANGES
      modifies this`count, ranges
      ensures Shaped() && View() == old(View())[..index] + [r] + old(View())[index..]
    {
      var i := count;
      while i > index
        invariant count == old(count) && index <= i <= count
        invariant forall k | 0 <= k < i :: ranges[k] == old(ranges[k])
        invariant forall k | i < k <= count :: ranges[k] == old(ranges[k - 1])
      {
        ranges[i] := ranges[i - 1];
        i := i - 1;
      }
      ranges[index] := r;
      count := count + 1;
      GapFilled(old(View()), View(), index, r);
    }

    /** `append_free_range` */
    method AppendFreeRange(base: nat, pages: nat) returns (ok: bool)
      requires Shaped()
      modifies this`count, ranges
      ensures Shaped()
      ensures match Appended(old(View()), base, pages)
              case Refused => !ok && View() == old(View())
              case Now(rs) => ok && View() == rs
    {
      hide Appended, InsertPoint, Grown;
      AppendedCases(View(), base, pages);
      if pages == 0 {
        return true;
      }
      if count >= MAX_RANGES {
        return false;
      }
      var at := FindInsertPoint(base);
      var end := base + pages * PAGE_SIZE;
      if at < count && end > ranges[at].base {
        return false;
      }
      ok := true;
      Join(at, base, pages);
    }

    lemma InUse()
      requires Shaped()
      ensures ranges.Length == MAX_RANGES && count <= MAX_RANGES && forall i: nat | i < count :: View()[i] == ranges[i]
    {
    }

    /** The second half of `append_free_range`: the block grows a neighbour, or stands alone. */
    method Join(at: nat, base: nat, pages: nat)
      requires Shaped() && count < MAX_RANGES && at <= count
      modifies this`count, ranges
      ensures Shaped() && View() == Grown(old(View()), at, base, pages)
    {
      hide *;
      InUse();
      GrownCases(View(), at, base, pages);
      if at > 0 && ranges[at - 1].End() == base {
        GrowPrevious(at, base, pages);
        return;
      }
      if at < count && base + pages * PAGE_SIZE == ranges[at].base {
        ReplaceAt(at, Range(base, ranges[at].pages + pages));
        return;
      }
      InsertAt(at, Range(base, pages));
    }

    method ReplaceAt(at: nat, r: Range)
      requires Shaped() && at < count
      modifies ranges
      ensures Shaped() && View() == old(View())[..at] + [r] + old(View())[at + 1..]
    {
      ghost var rs := View();
      ranges[at] := r;
      Replaced(rs, View(), at, r);
    }

    /** The range before `at` takes the new pages, and the one behind when it now touches it. */
    method GrowPrevious(at: nat, base: nat, pages: nat)
      requires Shaped() && 0 < at <= count && ranges[at - 1].End() == base
      modifies this`count, ranges
      ensures Shaped()
      ensures var rs := old(View());
              View() == if at < |rs| && base + pages * PAGE_SIZE == rs[at].base
                        then rs[..at - 1] + [Range(rs[at - 1].base,
                          rs[at - 1].pages + pages + rs[at].pages)] + rs[at + 1..]
                        else rs[..at - 1] + [Range(rs[at - 1].base, rs[at - 1].pages + pages)] + rs[at..]
    {
      ghost var rs := View();
      ranges[at - 1] := Range(ranges[at - 1].base, ranges[at - 1].pages + pages);
      if at < count && ranges[at - 1].End() == ranges[at].base {
        ranges[at - 1] := Range(ranges[at - 1].base, ranges[at - 1].pages + ranges[at].pages);
        assert View() == rs[..at - 1] + [ranges[at - 1]] + rs[at..];
        RemoveAt(at);
      } else {
        assert View() == rs[..at - 1] + [ranges[at - 1]] + rs[at..];
      }
    }

    method FindInsertPoint(base: nat) returns (at: nat)
      requires Shaped()
      ensures at == InsertPoint(View(), base)
    {
      at := 0;
      while at < count && ranges[at].base < base
        invariant at <= count
        invariant InsertPoint(View(), base) == at + InsertPoint(View()[at..], base)
      {
        assert View()[at..][1..] == View()[at + 1..];
        at := at + 1;
      }
    }
 
    /** `reserve_range`: takes the page-rounded interval out of the free pages, or changes nothing
        when the array has no room for the split. */
    method ReserveRange(start: nat, end: nat) returns (ok: bool)
      requires Shaped()
      modifies this`count, ranges
      ensures Shaped()
      ensures if ok then KeptFrom(Now(old(View())), start, end) == Now(View())
              else KeptFrom(Now(old(View())), start, end) == Refused
      ensures var lo, hi := AlignDown(start), AlignUp(end);
              var rs' := if lo < hi then Reserved(old(View()), lo, hi) else old(View());
              old(Valid()) ==>
                Valid() && ok == (|rs'| <= MAX_RANGES) && (View() == if ok then rs' else old(View()))
                && (ok ==> forall a: nat :: Holds(View(), a) <==> Holds(old(View()), a) && !Within(lo, hi, a))
    {
      var lo, hi := AlignDown(start), AlignUp(end);
      ghost var rs := View();
      if hi <= lo {
        return true;
      }
      if Canonical(rs) {
        ReservedRemoves(rs, lo, hi);
        RoomCanonical(rs, lo, hi);
      }
      hide Reserved, Canonical, Holds, RoomToSplit;
      ok := ReserveLoop(lo, hi);
    }

    method ReserveLoop(lo: nat, hi: nat) returns (ok: bool)
      requires Shaped() && lo < hi
      modifies this`count, ranges
      ensures Shaped() && ok == RoomToSplit(old(View()), lo, hi)
      ensures ok ==> View() == Reserved(old(View()), lo, hi)
      ensures !ok && Canonical(old(View())) ==> View() == old(View())
    {
      hide *;
      ghost var rs := View();
      SplitsFitAll(rs, lo, hi);
      var index := 0;
      ghost var j: nat := 0;
      ReservedNone(rs, lo, hi);
      while index < count
        invariant Shaped() && j <= |rs| && index == |Reserved(rs[..j], lo, hi)|
        invariant View() == Reserved(rs[..j], lo, hi) + rs[j..]
        invariant SplitsFit(rs, lo, hi, j)
        decreases |rs| - j
      {
        ReservedSnoc(rs, lo, hi, j);
        StepShape(Reserved(rs[..j], lo, hi), rs, j, Cut(rs[j], lo, hi));
        SplitsFitNext(rs, lo, hi, j);
        ok, index := ReserveStep(index, lo, hi);
        if !ok {
          if Canonical(rs) { SplitIsAlone(rs, lo, hi, j); }
          Parted(rs, j);
          return;
        }
        j := j + 1;
      }
      Parted(rs, j);
      ok := true;
    }

    /** One round of the loop: the range at `index` becomes what is left of it. */
    method ReserveStep(index: nat, lo: nat, hi: nat) returns (ok: bool, next: nat)
      requires Shaped() && index < count && lo < hi
      modifies this`count, ranges
      ensures Shaped()
      ensures var rs := old(View());
              var pieces := Cut(rs[index], lo, hi);
              && ok == (|pieces| < 2 || |rs| < MAX_RANGES)
              && (ok ==> View() == rs[..index] + pieces + rs[index + 1..] && next == index + |pieces|)
              && (!ok ==> View() == rs)
    {
      ghost var rs := View();
      var r := ranges[index];
      ok, next := true, index;
      if hi <= r.base || lo >= r.End() {
        Around(rs, index, r);
        next := index + 1;
      } else if lo <= r.base && hi >= r.End() {
        RemoveAt(index);
        NothingBetween(rs[..index], rs[index + 1..]);
      } else if lo <= r.base {
        ReplaceAt(index, Range(hi, (r.End() - hi) / PAGE_SIZE));
        next := index + 1;
      } else if hi >= r.End() {
        ReplaceAt(index, Range(r.base, (lo - r.base) / PAGE_SIZE));
        next := index + 1;
      } else {
        if count >= MAX_RANGES {
          return false, index;
        }
        InsertAt(index + 1, Range(hi, (r.End() - hi) / PAGE_SIZE));
        ReplaceAt(index, Range(r.base, (lo - r.base) / PAGE_SIZE));
        SplitShape(rs, index, Range(r.base, (lo - r.base) / PAGE_SIZE), Range(hi, (r.End() - hi) / PAGE_SIZE));
        next := index + 2;
      }
    }

    /** `alloc_pages`: the lowest run of free pages, or nothing exactly when there is no such run. */
    method AllocPages(n: nat) returns (base: Option<nat>)
      requires Valid()
      modifies this`count, ranges
      ensures Valid()
      ensures base.None? <==> !ready || n == 0 || forall a: nat :: !FreeRun(old(View()), a, n)
      ensures base.None? ==> View() == old(View())
      ensures base.Some? ==> FreeRun(old(View()), base.value, n) && forall a: nat | FreeRun(old(View()), a, n) ::
              base.value <= a
      ensures base.Some? ==> forall a: nat ::
                Holds(View(), a) <==> Holds(old(View()), a) && !Within(base.value, base.value + n * PAGE_SIZE, a)
      ensures base.Some? ==> FirstFit(old(View()), n) < |old(View())| && View() == Taken(old(View()), n)
                             && base.value == old(View())[FirstFit(old(View()), n)].base
    {
      if !ready || n == 0 {
        return None;
      }
      hide Canonical, Holds, FreeRun, FirstFit, Taken;
      FitIsLowest(View(), n);
      var index := FindFit(n);
      if index == count {
        return None;
      }
      TakenRemoves(View(), n);
      var first := TakeFrom(index, n);
      base := Some(first);
    }

    method TakeFrom(index: nat, n: nat) returns (first: nat)
      requires Shaped() && index == FirstFit(View(), n) < count && n > 0
      modifies this`count, ranges
      ensures Shaped() && first == old(View())[index].base && View() == Taken(old(View()), n)
    {
      ghost var rs := View();
      hide FirstFit;
      first := ranges[index].base;
      ranges[index] := Range(ranges[index].base + n * PAGE_SIZE, ranges[index].pages - n);
      if ranges[index].pages == 0 {
        assert View() == rs[index := ranges[index]];
        RemoveAt(index);
        assert View() == rs[..index] + rs[index + 1..];
      } else {
        assert View() == rs[index := ranges[index]];
      }
    }

    method FindFit(n: nat) returns (index: nat)
      requires Shaped()
      ensures index == FirstFit(View(), n)
    {
      index := 0;
      while index < count && ranges[index].pages < n
        invariant index <= count
        invariant FirstFit(View(), n) == index + FirstFit(View()[index..], n)
      {
        assert View()[index..][1..] == View()[index + 1..];
        index := index + 1;
      }
    }

    /** `free_pages`: the block joins the free pages, or is lost when the array is full. */
    method FreePages(base: nat, n: nat)
      requires Valid() && base % PAGE_SIZE == 0 && ClearOf(View(), base, base + n * PAGE_SIZE)
      modifies this`count, this`lost, ranges
      ensures Valid()
      ensures if !ready || base == 0 || n == 0 then View() == old(View()) && lost == old(lost)
              else if |old(View())| >= MAX_RANGES then View() == old(View()) && lost == old(lost) + [Range(base, n)]
              else lost == old(lost) && Appended(old(View()), base, n) == Now(View())
                   && forall a: nat :: Holds(View(), a) <==>
                       Holds(old(View()), a)
                       || Within(base, base + n * PAGE_SIZE, a)
    {
      if !ready || base == 0 || n == 0 {
        return;
      }
      ClearIsClear(View(), base, n);
      AppendRefuses(View(), base, n);
      if Appended(View(), base, n).Now? { AppendAdds(View(), base, n); }
      var ok := AppendFreeRange(base, n);
      if !ok {
        lost := lost + [Range(base, n)];
      }
    }

    // ----------------------------------------------------------- start-up

    /** `add_descriptor_range`: the whole pages of the interval below 4 GiB. */
    method AddDescriptorRange(start: nat, end: nat) returns (ok: bool)
      requires Shaped()
      modifies this`count, this`total, ranges
      ensures Shaped() && (if ok then AddedRange(old(View()), start, end) == Now(View())
              else AddedRange(old(View()), start, end) == Refused)
      ensures !ok ==> View() == old(View())
      ensures old(Valid()) && (forall a: nat | Clipped(start, end, a) :: !Holds(old(View()), a)) ==>
                Valid()
                && (ok ==> forall a: nat :: Holds(View(), a) <==> Holds(old(View()), a) || Clipped(start, end, a))
    {
      hide Holds, Canonical, Appended, ClearBehind, AlignUp, AlignDown;
      if start >= MAX_PHYS {
        return true;
      }
      var lo := AlignUp(start);
      var hi := AlignDown(if end > MAX_PHYS then MAX_PHYS else end);
      if hi <= lo {
        return true;
      }
      ClipMeans(start, end, lo, hi);
      ghost var rs := View();
      ghost var clear := Canonical(rs) && forall a: nat | Clipped(start, end, a) :: !Holds(rs, a);
      if clear { ClearIsClear(rs, lo, (hi - lo) / PAGE_SIZE); }
      ok := AppendFreeRange(lo, (hi - lo) / PAGE_SIZE);
      if ok {
        if clear { AppendAdds(rs, lo, (hi - lo) / PAGE_SIZE); }
        total := total + (hi - lo) / PAGE_SIZE;
      }
    }

    /** `memory_init`: it succeeds exactly when the ranges fit the array all along and some are left.
        Then, if the memory map offers no page twice, the free pages are exactly the whole
        conventional pages below 4 GiB that no reserved interval touches. */
    method Init(report: seq<Descriptor>, kernelStart: nat, kernelEnd: nat, frame: Option<(nat, nat)>) returns (ok: bool)
      requires Shaped() && Reported(report)
      modifies this, ranges
      ensures ok <==>
                Started(report, kernelStart, kernelEnd, frame).Now?
                && Started(report, kernelStart, kernelEnd, frame).ranges != []
      ensures Shaped() && ready == ok
      ensures ok ==> View() == Started(report, kernelStart, kernelEnd, frame).ranges
      ensures ok && Disjoint(report) ==>
                Valid() && forall a: nat :: Holds(View(), a) <==>
                  Offered(report, |report|, a) && !Kept(kernelStart, kernelEnd, frame, a)
    {
      hide Gathered, KeptFrom, Offered, Kept, Holds, Canonical, Disjoint, Reported;
      ok := Gather(report);
      StartedIs(report, kernelStart, kernelEnd, frame);
      if !ok { return; }
      ok := KeepBack(kernelStart, kernelEnd, frame, Gathered(report, |report|));
      if !ok { return; }
      ready := count != 0;
      ok := ready;
    }

    method Gather(report: seq<Descriptor>) returns (ok: bool)
      requires Shaped() && Reported(report)
      modifies this, ranges
      ensures !ready && Shaped()
      ensures if ok then Gathered(report, |report|) == Now(View()) else Gathered(report, |report|) == Refused
      ensures ok && Disjoint(report) ==>
                Valid() && forall a: nat :: Holds(View(), a) <==> Offered(report, |report|, a)
    {
      hide Offered, Holds, Disjoint, Canonical, Offers, Clipped, Gathered, AddedRange, DescriptorEnd;
      count, total, ready, lost := 0, 0, false, [];
      NothingOffered(report, View());
      GatheredNone(report);
      for i := 0 to |report|
        invariant Shaped() && !ready && Gathered(report, i) == Now(View())
        invariant Disjoint(report) ==>
                    Canonical(View()) && forall a: nat :: Holds(View(), a) <==> Offered(report, i, a)
      {
        if Disjoint(report) { OneMoreOffered(report, i); }
        OffersMeans(report[i]);
        GatheredNext(report, i);
        var d := report[i];
        if d.kind != CONVENTIONAL || d.pages == 0 {
          continue;
        }
        ok := AddDescriptorRange(d.start, DescriptorEnd(d));
        if !ok {
          GatheredStays(report, i + 1, |report|);
          return;
        }
      }
      ok := true;
    }

    method KeepBack(kernelStart: nat, kernelEnd: nat, frame: Option<(nat, nat)>, ghost o: Outcome) returns (ok: bool)
      requires Shaped() && o == Now(View())
      modifies this`count, ranges
      ensures Shaped()
      ensures if ok then KeptBack(o, kernelStart, kernelEnd, frame) == Now(View())
              else KeptBack(o, kernelStart, kernelEnd, frame) == Refused
      ensures ok && old(Valid()) ==>
                Valid() && forall a: nat :: Holds(View(), a) <==>
                  Holds(old(View()), a) && !Kept(kernelStart, kernelEnd, frame, a)
    {
      RefusedStays();
      hide Holds, Canonical, Reserved, Within, AlignDown, AlignUp, RoomToSplit, KeptFrom;
      ok := ReserveRange(0, RESERVED_LOW_END);
      if !ok { return; }
      ok := ReserveRange(kernelStart, kernelEnd);
      if !ok { return; }
      ok := ReserveRange(PROCESS_REGION_START, PROCESS_REGION_END);
      if !ok || frame.None? { return; }
      ok := ReserveRange(frame.value.0, (frame.value.0 + frame.value.1) % WORD);
    }

    /** `memory_free_pages` */
    method CountFree() returns (pages: nat)
      requires Shaped()
      ensures pages == Total(View())
    {
      pages := 0;
      for i := 0 to count
        invariant pages == Total(View()[..i])
      {
        assert View()[..i + 1][..i] == View()[..i];
        pages := pages + ranges[i].pages;
      }
      assert View()[..count] == View();
    }
  }

  /** Freeing what is not free overlaps no range, in front or behind. */
  lemma GapClosed(was: seq<Range>, now: seq<Range>, index: nat)
    requires index < |was| && |now| == |was| - 1 && forall k | 0 <= k < |now| :: now[k] == was[if index <= k then k + 1
             else k]
    ensures now == was[..index] + was[index + 1..]
  {
  }

  lemma GapFilled(was: seq<Range>, now: seq<Range>, index: nat, r: Range)
    requires index <= |was| && |now| == |was| + 1
    requires forall k {:trigger now[k]} | 0 <= k < |now| :: now[k] == if k < index then was[k] else if k == index then r
             else was[k - 1]
    ensures now == was[..index] + [r] + was[index..]
  {
  }

  lemma Replaced(was: seq<Range>, now: seq<Range>, index: nat, r: Range)
    requires index < |was| && |now| == |was| && forall k | 0 <= k < |now| :: now[k] == if k == index then r else was[k]
    ensures now == was[..index] + [r] + was[index + 1..]
  {
  }

  lemma ClearIsClear(rs: seq<Range>, base: nat, n: nat)
    requires Canonical(rs) && n > 0 && ClearOf(rs, base, base + n * PAGE_SIZE)
    ensures ClearBehind(rs, base)
  {
    forall i: nat | i < |rs| && rs[i].base < base ensures rs[i].End() <= base {
      HoldsIf(rs, i, base);
    }
  }

  function Total(rs: seq<Range>): nat {
    if rs == [] then 0 else Total(rs[..|rs| - 1]) + rs[|rs| - 1].pages
  }

  /** The pages of all ranges are as many as the page numbers they hold. */
  lemma {:induction false} TotalCounts(rs: seq<Range>, ps: set<nat>)
    requires Canonical(rs) && forall p: nat :: p in ps <==> Holds(rs, p * PAGE_SIZE)
    ensures |ps| == Total(rs)
    decreases |rs|
  {
    if rs == [] {
      assert ps == {};
    } else {
      var front, r := rs[..|rs| - 1], rs[|rs| - 1];
      assert Proper(r);
      hide *;
      var first := r.base / PAGE_SIZE;
      var last := PageNumbers(first, r.pages);
      PageNumbersCount(first, r.pages);
      FrontCanonical(rs);
      LastTotal(rs);
      forall p: nat ensures Holds(rs, p * PAGE_SIZE) <==> Holds(front, p * PAGE_SIZE) || p in last {
        HoldsConcat(front, [r], p * PAGE_SIZE);
        assert rs == front + [r];
        HoldsOne(r, p * PAGE_SIZE);
        PageOfRange(r, p);
      }
      forall p: nat ensures !(Holds(front, p * PAGE_SIZE) && p in last) {
        PageOfRange(r, p);
        if Holds(front, p * PAGE_SIZE) { BehindFront(rs, p * PAGE_SIZE); }
      }
      var rest := ps - last;
      TotalCounts(front, rest);
      assert ps == rest + last && rest !! last;
    }
  }

  lemma LastTotal(rs: seq<Range>)
    requires rs != []
    ensures Total(rs) == Total(rs[..|rs| - 1]) + rs[|rs| - 1].pages
  {
  }

  lemma PageOfRange(r: Range, p: nat)
    requires r.base % PAGE_SIZE == 0
    ensures InRange(r, p * PAGE_SIZE) <==> r.base / PAGE_SIZE <= p < r.base / PAGE_SIZE + r.pages
  {
  }

  lemma FrontCanonical(rs: seq<Range>)
    requires Canonical(rs) && rs != []
    ensures Canonical(rs[..|rs| - 1])
  {
    hide Proper;
  }

  lemma BehindFront(rs: seq<Range>, a: nat)
    requires Canonical(rs) && rs != [] && Holds(rs[..|rs| - 1], a)
    ensures !InRange(rs[|rs| - 1], a)
  {
    hide Proper;
  }

  /** The `n` numbers from `first` on. */
  function PageNumbers(first: nat, n: nat): (ns: set<nat>)
    ensures forall p: nat :: p in ns <==> first <= p < first + n
  {
    if n == 0 then {} else PageNumbers(first, n - 1) + {first + (n - 1)}
  }

  lemma {:induction false} PageNumbersCount(first: nat, n: nat)
    ensures |PageNumbers(first, n)| == n
  {
    if n > 0 {
      PageNumbersCount(first, n - 1);
      assert PageNumbers(first, n) == PageNumbers(first, n - 1) + {first + (n - 1)};
      hide *;
    }
  }

  /** Taking pages takes their number. */
  lemma TakenTotal(rs: seq<Range>, n: nat)
    requires FirstFit(rs, n) < |rs|
    ensures n > 0 ==> Total(Taken(rs, n)) + n == Total(rs)
  {
    var i := FirstFit(rs, n);
    var left := Range(rs[i].base + n * PAGE_SIZE, rs[i].pages - n);
    TakenIs(rs, n, left);
    hide *;
    TotalOne(rs[i]);
    TotalOne(left);
    TotalJoin(rs[..i] + [rs[i]], rs[i + 1..]);
    TotalJoin(rs[..i], [rs[i]]);
    TotalJoin(rs[..i] + [left], rs[i + 1..]);
    TotalJoin(rs[..i], [left]);
    TotalJoin(rs[..i], rs[i + 1..]);
  }

  lemma TakenIs(rs: seq<Range>, n: nat, left: Range)
    requires FirstFit(rs, n) < |rs|
             && left == Range(rs[FirstFit(rs, n)].base + n * PAGE_SIZE, rs[FirstFit(rs, n)].pages - n)
    ensures var i := FirstFit(rs, n);
            && rs == rs[..i] + [rs[i]] + rs[i + 1..] && rs[i].pages >= n
            && Taken(rs, n) == if rs[i].pages == n then rs[..i] + rs[i + 1..] else rs[..i] + [left] + rs[i + 1..]
  {
    Around(rs, FirstFit(rs, n), left);
    hide FirstFit;
  }

  lemma Around(rs: seq<Range>, i: nat, r: Range)
    requires i < |rs|
    ensures rs == rs[..i] + [rs[i]] + rs[i + 1..] && rs[i := r] == rs[..i] + [r] + rs[i + 1..]
  {
  }

  lemma TotalOne(r: Range)
    ensures Total([r]) == r.pages
  {
    assert [r][..0] == [];
  }

  lemma {:induction false} TotalJoin(xs: seq<Range>, ys: seq<Range>)
    ensures Total(xs + ys) == Total(xs) + Total(ys)
    decreases |ys|
  {
    if ys == [] {
      assert xs + ys == xs;
    } else {
      assert (xs + ys)[..|xs + ys| - 1] == xs + ys[..|ys| - 1];
      TotalJoin(xs, ys[..|ys| - 1]);
    }
  }

  lemma NothingBetween(a: seq<Range>, b: seq<Range>)
    ensures a + [] + b == a + b
  {
  }

  lemma SplitShape(rs: seq<Range>, i: nat, left: Range, right: Range)
    requires i < |rs|
    ensures var wide := rs[..i + 1] + [right] + rs[i + 1..];
            wide[..i] + [left] + wide[i + 1..] == rs[..i] + [left, right] + rs[i + 1..]
  {
  }

  lemma Parted(rs: seq<Range>, j: nat)
    requires j <= |rs|
    ensures rs[..j] + rs[j..] == rs && (rs[j..] == [] ==> rs[..j] == rs && j == |rs|)
  {
  }

  lemma StepShape(done: seq<Range>, rs: seq<Range>, j: nat, pieces: seq<Range>)
    requires j < |rs|
    ensures var v := done + rs[j..];
            v[|done|] == rs[j] && v[..|done|] + pieces + v[|done| + 1..] == done + pieces + rs[j + 1..]
  {
  }

  lemma ReservedNone(rs: seq<Range>, lo: nat, hi: nat)
    ensures Reserved(rs[..0], lo, hi) == []
  {
  }

  lemma {:induction false} ReservedConcat(xs: seq<Range>, ys: seq<Range>, lo: nat, hi: nat)
    ensures Reserved(xs + ys, lo, hi) == Reserved(xs, lo, hi) + Reserved(ys, lo, hi)
    decreases |xs|
  {
    if xs == [] {
      assert xs + ys == ys;
    } else {
      assert (xs + ys)[1..] == xs[1..] + ys;
      ReservedConcat(xs[1..], ys, lo, hi);
    }
  }

  lemma ReservedSnoc(rs: seq<Range>, lo: nat, hi: nat, j: nat)
    ensures j < |rs| ==> Reserved(rs[..j + 1], lo, hi) == Reserved(rs[..j], lo, hi) + Cut(rs[j], lo, hi)
  {
    if j < |rs| {
      assert rs[..j + 1] == rs[..j] + [rs[j]];
      ReservedConcat(rs[..j], [rs[j]], lo, hi);
      ReservedOne(rs[j], lo, hi);
    }
  }

  lemma ReservedOne(r: Range, lo: nat, hi: nat)
    ensures Reserved([r], lo, hi) == Cut(r, lo, hi)
  {
    assert Reserved([], lo, hi) == [];
  }

  /** No range meets the interval. */
  ghost predicate Aside(rs: seq<Range>, lo: nat, hi: nat) {
    forall i: nat | i < |rs| :: hi <= rs[i].base || lo >= rs[i].End()
  }

  lemma {:induction false} ReservedAside(rs: seq<Range>, lo: nat, hi: nat)
    requires Aside(rs, lo, hi)
    ensures Reserved(rs, lo, hi) == rs
    decreases |rs|
  {
    if rs != [] {
      ReservedAside(rs[1..], lo, hi);
      assert rs == [rs[0]] + rs[1..];
    }
  }

  /** A range that has to be split contains the whole interval, so no other range is touched. */
  lemma SplitIsAlone(rs: seq<Range>, lo: nat, hi: nat, j: nat)
    requires Canonical(rs) && j < |rs| && |Cut(rs[j], lo, hi)| >= 2 && lo < hi
    ensures Reserved(rs[..j], lo, hi) == rs[..j] && |Reserved(rs, lo, hi)| == |rs| + 1
  {
    hide *;
    AsideOfSplit(rs, lo, hi, j);
    var front, back := rs[..j], rs[j + 1..];
    ReservedAside(front, lo, hi);
    ReservedAside(back, lo, hi);
    assert rs == front + ([rs[j]] + back);
    ReservedConcat(front, [rs[j]] + back, lo, hi);
    ReservedConcat([rs[j]], back, lo, hi);
    ReservedOne(rs[j], lo, hi);
  }

  lemma AsideOfSplit(rs: seq<Range>, lo: nat, hi: nat, j: nat)
    requires Canonical(rs) && j < |rs| && |Cut(rs[j], lo, hi)| >= 2 && lo < hi
    ensures |Cut(rs[j], lo, hi)| == 2 && Aside(rs[..j], lo, hi) && Aside(rs[j + 1..], lo, hi)
  {
    forall i: nat | i < |rs| && i != j ensures hi <= rs[i].base || lo >= rs[i].End() {
      assert i < j ==> rs[i].End() < rs[j].base;
      assert i > j ==> rs[j].End() < rs[i].base;
    }
  }

  // ------------------------------------------------------- requests and returns

  /** Requests for runs of pages, each served by first fit from what the one before left. */
  function Served(free: seq<Range>, ns: seq<nat>): Option<seq<Range>>
    decreases |ns|
  {
    if ns == [] then Some(free)
    else if FirstFit(free, ns[0]) < |free| then Served(Taken(free, ns[0]), ns[1..])
    else None
  }

  lemma {:induction false} ServedConcat(free: seq<Range>, ns: seq<nat>, ms: seq<nat>)
    ensures Served(free, ns + ms) == if Served(free, ns).Some? then Served(Served(free, ns).value, ms) else None
    decreases |ns|
  {
    hide Taken, FirstFit;
    if ns == [] {
      assert ns + ms == ms;
    } else {
      assert (ns + ms)[1..] == ns[1..] + ms;
      if FirstFit(free, ns[0]) < |free| { ServedConcat(Taken(free, ns[0]), ns[1..], ms); }
    }
  }

  lemma ServedOne(free: seq<Range>, n: nat)
    ensures Served(free, [n]) == if FirstFit(free, n) < |free| then Some(Taken(free, n)) else None
  {
    assert [n][1..] == [];
    hide Taken, FirstFit;
  }

  /** What was taken in turn needs no more ranges to describe what is left. */
  lemma {:induction false} ServedShrinks(free: seq<Range>, ns: seq<nat>)
    requires Served(free, ns).Some?
    ensures |Served(free, ns).value| <= |free|
    decreases |ns|
  {
    if ns != [] { ServedShrinks(Taken(free, ns[0]), ns[1..]); }
  }

  function Sum(ns: seq<nat>): nat {
    if ns == [] then 0 else ns[0] + Sum(ns[1..])
  }

  lemma {:induction false} ServedTotal(free: seq<Range>, ns: seq<nat>)
    requires Served(free, ns).Some? && forall n | n in ns :: n > 0
    ensures Total(Served(free, ns).value) + Sum(ns) == Total(free)
    decreases |ns|
  {
    hide Taken, FirstFit, Total;
    if ns != [] {
      assert ns[0] in ns && forall n | n in ns[1..] :: n in ns;
      TakenTotal(free, ns[0]);
      ServedTotal(Taken(free, ns[0]), ns[1..]);
    }
  }

  /** The array after `free_pages` of a block of which nothing is free. */
  function Back(rs: seq<Range>, b: Range): seq<Range> {
    if |rs| >= MAX_RANGES then rs
    else match Appended(rs, b.base, b.pages)
      case Now(next) => next
      case Refused => rs
  }

  /** The array after blocks were freed one after the other, and the blocks lost on the way: those
      that found it full. */
  function HandBack(rs: seq<Range>, blocks: seq<Range>): seq<Range>
    decreases |blocks|
  {
    if blocks == [] then rs else HandBack(Back(rs, blocks[0]), blocks[1..])
  }

  function Dropped(rs: seq<Range>, blocks: seq<Range>): seq<Range>
    decreases |blocks|
  {
    if blocks == [] then []
    else (if |rs| >= MAX_RANGES then [blocks[0]] else []) + Dropped(Back(rs, blocks[0]), blocks[1..])
  }

  /** The blocks were given back in this order, by as many calls of `free_pages`. */
  ghost predicate Given(free: seq<Range>, lost: seq<Range>, blocks: seq<Range>, free': seq<Range>, lost': seq<Range>) {
    free' == HandBack(free, blocks) && lost' == lost + Dropped(free, blocks)
  }

  lemma GivenNone(free: seq<Range>, lost: seq<Range>)
    ensures Given(free, lost, [], free, lost)
  {
  }

  lemma GivenOne(free: seq<Range>, lost: seq<Range>, free': seq<Range>, lost': seq<Range>, b: Range)
    requires if |free| >= MAX_RANGES then free' == free && lost' == lost + [b]
             else lost' == lost && Appended(free, b.base, b.pages) == Now(free')
    ensures Given(free, lost, [b], free', lost')
  {
    OneBack(free, b);
    hide Appended, HandBack, Dropped;
  }

  lemma OneBack(rs: seq<Range>, b: Range)
    ensures HandBack(rs, [b]) == Back(rs, b) && Dropped(rs, [b]) == if |rs| >= MAX_RANGES then [b] else []
  {
    assert [b][1..] == [];
    assert HandBack(Back(rs, b), []) == Back(rs, b) && Dropped(Back(rs, b), []) == [];
    hide Back;
  }

  lemma {:induction false} BackConcat(rs: seq<Range>, a: seq<Range>, b: seq<Range>)
    ensures HandBack(rs, a + b) == HandBack(HandBack(rs, a), b)
    ensures Dropped(rs, a + b) == Dropped(rs, a) + Dropped(HandBack(rs, a), b)
    decreases |a|
  {
    hide *;
    BackUnfolds(rs, a);
    BackUnfolds(rs, a + b);
    if a == [] {
      assert a + b == b && [] + Dropped(rs, b) == Dropped(rs, b);
    } else {
      assert (a + b)[1..] == a[1..] + b && (a + b)[0] == a[0];
      BackConcat(Back(rs, a[0]), a[1..], b);
    }
  }

  lemma BackUnfolds(rs: seq<Range>, blocks: seq<Range>)
    ensures blocks == [] ==> HandBack(rs, blocks) == rs && Dropped(rs, blocks) == []
    ensures blocks != [] ==>
              HandBack(rs, blocks) == HandBack(Back(rs, blocks[0]), blocks[1..])
              && Dropped(rs, blocks) ==
                 (if |rs| >= MAX_RANGES then [blocks[0]] else []) + Dropped(Back(rs, blocks[0]), blocks[1..])
  {
    hide Back;
  }

  lemma GivenMore(free: seq<Range>, lost: seq<Range>, a: seq<Range>, free1: seq<Range>, lost1: seq<Range>,
                  b: seq<Range>,
                  free2: seq<Range>, lost2: seq<Range>)
    requires Given(free, lost, a, free1, lost1) && Given(free1, lost1, b, free2, lost2)
    ensures Given(free, lost, a + b, free2, lost2)
  {
    BackConcat(free, a, b);
    hide HandBack, Dropped;
  }

  /** With a range to spare for every block, none is lost. */
  lemma {:induction false} BackKeeps(rs: seq<Range>, blocks: seq<Range>)
    requires |rs| + |blocks| <= MAX_RANGES
    ensures Dropped(rs, blocks) == []
    decreases |blocks|
  {
    if blocks != [] {
      AppendedLength(rs, blocks[0].base, blocks[0].pages);
      BackKeeps(Back(rs, blocks[0]), blocks[1..]);
    }
  }

  lemma GivenKeeps(free: seq<Range>, lost: seq<Range>, blocks: seq<Range>, free': seq<Range>, lost': seq<Range>)
    requires Given(free, lost, blocks, free', lost') && |free| + |blocks| <= MAX_RANGES
    ensures lost' == lost
  {
    BackKeeps(free, blocks);
    hide HandBack;
  }

  /** One block taken and given back: it is lost if and only if the array is full without it. */
  lemma TakenGiven(rs: seq<Range>, n: nat, lost: seq<Range>, rs': seq<Range>, lost': seq<Range>)
    requires Canonical(rs) && |rs| <= MAX_RANGES && n > 0 && FirstFit(rs, n) < |rs|
    requires Given(Taken(rs, n), lost, [Range(rs[FirstFit(rs, n)].base, n)], rs', lost')
    ensures lost' == lost + if |Taken(rs, n)| < MAX_RANGES then [] else [Range(rs[FirstFit(rs, n)].base, n)]
    ensures rs' == if |Taken(rs, n)| < MAX_RANGES then rs else Taken(rs, n)
  {
    hide Appended, Taken, FirstFit, Canonical, HandBack, Dropped;
    OneBack(Taken(rs, n), Range(rs[FirstFit(rs, n)].base, n));
    TakenAndFreed(rs, n);
  }

  // ------------------------------------------------------------ conservation

  /** Taking a block and giving it back restores the array exactly, unless giving it back finds the
      array full: then the block is lost. */
  lemma TakenAndFreed(rs: seq<Range>, n: nat)
    requires Canonical(rs) && |rs| <= MAX_RANGES && n > 0 && FirstFit(rs, n) < |rs|
    ensures var base := rs[FirstFit(rs, n)].base;
            Appended(Taken(rs, n), base, n) == if |Taken(rs, n)| < MAX_RANGES then Now(rs) else Refused
  {
    hide Taken, FirstFit, Holds, Canonical, Appended, FreeRun, ClearBehind, Proper;
    var base := rs[FirstFit(rs, n)].base;
    var rs' := Taken(rs, n);
    FitIsFree(rs, n);
    TakenRemoves(rs, n);
    ClearIsClear(rs', base, n);
    AppendRefuses(rs', base, n);
    if |rs'| < MAX_RANGES {
      AppendAdds(rs', base, n);
      CanonicalUnique(Appended(rs', base, n).ranges, rs);
    }
  }

  lemma FitIsFree(rs: seq<Range>, n: nat)
    requires Canonical(rs) && n > 0 && FirstFit(rs, n) < |rs|
    ensures var base := rs[FirstFit(rs, n)].base;
            base % PAGE_SIZE == 0 && forall a: nat | Within(base, base + n * PAGE_SIZE, a) :: Holds(rs, a)
  {
    hide FirstFit;
    FitIsLowest(rs, n);
    hide Holds, Canonical;
  }

  /** Freeing blocks one after the other, none of them refused. */
  function FreedInTurn(rs: seq<Range>, blocks: seq<Range>): Outcome
    decreases |blocks|
  {
    if blocks == [] then Now(rs)
    else match Appended(rs, blocks[0].base, blocks[0].pages)
      case Refused => Refused
      case Now(next) => FreedInTurn(next, blocks[1..])
  }

  ghost predicate ApartBlocks(blocks: seq<Range>) {
    && (forall i: nat | i < |blocks| :: Proper(blocks[i]))
    && forall i: nat, j: nat, a: nat | i < j < |blocks| && InRange(blocks[i], a) :: !InRange(blocks[j], a)
  }

  /** With room for one range more for every block, none is refused. */
  lemma {:induction false} NoneRefused(rest: seq<Range>, blocks: seq<Range>)
    requires Canonical(rest) && ApartBlocks(blocks) && forall a: nat | Holds(blocks, a) :: !Holds(rest, a)
    requires |rest| + |blocks| <= MAX_RANGES
    ensures FreedInTurn(rest, blocks).Now?
    decreases |blocks|
  {
    if blocks != [] {
      var b, others := blocks[0], blocks[1..];
      var next := Appended(rest, b.base, b.pages);
      FirstFreed(rest, blocks);
      AppendedLength(rest, b.base, b.pages);
      OthersApart(blocks);
      hide Holds, Canonical, Appended, ApartBlocks;
      NoneRefused(next.ranges, others);
    }
  }

  lemma AppendedLength(rs: seq<Range>, base: nat, pages: nat)
    ensures Appended(rs, base, pages).Now? ==> |Appended(rs, base, pages).ranges| <= |rs| + 1
  {
    hide InsertPoint;
  }

  /** The first of the blocks goes back, and the others still may. */
  lemma FirstFreed(rest: seq<Range>, blocks: seq<Range>)
    requires Canonical(rest) && ApartBlocks(blocks) && blocks != [] && forall a: nat | Holds(blocks, a) ::
             !Holds(rest, a)
    requires |rest| < MAX_RANGES
    ensures var next := Appended(rest, blocks[0].base, blocks[0].pages);
            && next.Now? && Canonical(next.ranges)
            && (forall a: nat :: Holds(next.ranges, a) <==> Holds(rest, a) || InRange(blocks[0], a))
            && forall a: nat | Holds(blocks[1..], a) :: !Holds(next.ranges, a)
  {
    var b, others := blocks[0], blocks[1..];
    assert Proper(b);
    FirstIsClear(rest, blocks);
    forall a: nat | b.base <= a < b.base + b.pages * PAGE_SIZE ensures !Holds(rest, a) {
      HoldsAt(blocks, 0, a);
    }
    AppendRefuses(rest, b.base, b.pages);
    AppendAdds(rest, b.base, b.pages);
    OthersApart(blocks);
    forall a: nat ensures Holds(blocks, a) <==> InRange(b, a) || Holds(others, a) {
      FirstOf(blocks, 0, a);
      assert blocks[0..] == blocks;
    }
    hide Holds, Canonical, Appended, ApartBlocks, ClearBehind;
  }

  /** Whatever the order in which outstanding blocks come back: if together with the free pages
      they make up the pages of `rs`, and the array has room for them all, it ends as `rs`. */
  lemma FreedInAnyOrder(rs: seq<Range>, rest: seq<Range>, blocks: seq<Range>)
    requires Canonical(rs) && Canonical(rest) && ApartBlocks(blocks)
    requires forall a: nat :: Holds(rs, a) <==> Holds(rest, a) || Holds(blocks, a)
    requires forall a: nat | Holds(blocks, a) :: !Holds(rest, a)
    requires |rest| + |blocks| <= MAX_RANGES
    ensures FreedInTurn(rest, blocks) == Now(rs)
  {
    NoneRefused(rest, blocks);
    hide *;
    FreedAll(rs, rest, blocks);
  }

  /** What is not refused ends as `rs`, full array or not. */
  lemma {:induction false} FreedAll(rs: seq<Range>, rest: seq<Range>, blocks: seq<Range>)
    requires Canonical(rs) && Canonical(rest) && ApartBlocks(blocks)
    requires forall a: nat :: Holds(rs, a) <==> Holds(rest, a) || Holds(blocks, a)
    requires forall a: nat | Holds(blocks, a) :: !Holds(rest, a)
    requires FreedInTurn(rest, blocks).Now?
    ensures FreedInTurn(rest, blocks) == Now(rs)
    decreases |blocks|
  {
    if blocks == [] {
      forall a: nat ensures Holds(rest, a) <==> Holds(rs, a) { HoldsNone(a); }
      CanonicalUnique(rest, rs);
    } else {
      var b, others := blocks[0], blocks[1..];
      assert Proper(b);
      forall a: nat ensures Holds(blocks, a) <==> InRange(b, a) || Holds(others, a) {
        FirstOf(blocks, 0, a);
        assert blocks[0..] == blocks;
      }
      FirstIsClear(rest, blocks);
      AppendAdds(rest, b.base, b.pages);
      var next := Appended(rest, b.base, b.pages).ranges;
      OthersApart(blocks);
      forall a: nat | Holds(others, a) ensures !Holds(next, a) {
      }
      hide Holds, Canonical, Appended, ApartBlocks;
      FreedAll(rs, next, others);
    }
  }

  lemma FirstIsClear(rest: seq<Range>, blocks: seq<Range>)
    requires Canonical(rest) && ApartBlocks(blocks) && blocks != []
    requires forall a: nat | Holds(blocks, a) :: !Holds(rest, a)
    ensures ClearBehind(rest, blocks[0].base)
  {
    var b := blocks[0];
    assert Proper(b);
    forall a: nat | b.base <= a < b.base + b.pages * PAGE_SIZE ensures !Holds(rest, a) {
      HoldsAt(blocks, 0, a);
    }
    ClearIsClear(rest, b.base, b.pages);
  }

  lemma OthersApart(blocks: seq<Range>)
    requires ApartBlocks(blocks) && blocks != []
    ensures ApartBlocks(blocks[1..])
    ensures forall a: nat | Holds(blocks[1..], a) :: !InRange(blocks[0], a)
  {
    var others := blocks[1..];
    forall i: nat | i < |others| ensures Proper(others[i]) {
      assert others[i] == blocks[i + 1];
    }
    forall i: nat, j: nat, a: nat | i < j < |others| && InRange(others[i], a) ensures !InRange(others[j], a) {
      assert others[i] == blocks[i + 1] && others[j] == blocks[j + 1];
    }
    forall a: nat | Holds(others, a) ensures !InRange(blocks[0], a) {
      var i: nat :| i < |others| && InRange(others[i], a);
      assert others[i] == blocks[i + 1];
    }
  }
}
