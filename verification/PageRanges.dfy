/** The free-page ranges: a sorted array of intervals standing for a set of free pages.
    The pure part: what the array means, and what each edit does to that meaning. */
module PageRanges {
  const PAGE_SIZE := 4096
  const MAX_RANGES := 256
  const MAX_PHYS := 0x1_0000_0000
  const WORD := 0x1_0000_0000_0000_0000   // machine arithmetic is modulo this

  datatype Range = Range(base: nat, pages: nat) {
    function End(): nat { base + pages * PAGE_SIZE }
  }

  ghost predicate InRange(r: Range, a: nat) {
    r.base <= a < r.End()
  }

  /** Address `a` lies in a free page. */
  ghost predicate Holds(rs: seq<Range>, a: nat) {
    exists i: nat :: i < |rs| && InRange(rs[i], a)
  }

  ghost predicate Within(lo: nat, hi: nat, a: nat) {
    lo <= a < hi
  }

  ghost predicate Proper(r: Range) {
    r.pages > 0 && r.base % PAGE_SIZE == 0
  }

  /** Non-empty whole-page ranges, sorted, with a gap between any two. */
  ghost predicate Canonical(rs: seq<Range>) {
    && (forall i: nat | i < |rs| :: Proper(rs[i]))
    && (forall i: nat, j: nat | i < j < |rs| :: rs[i].End() < rs[j].base)
  }

  lemma HoldsAt(rs: seq<Range>, i: nat, a: nat)
    requires i < |rs| && InRange(rs[i], a)
    ensures Holds(rs, a)
  {
  }

  lemma HoldsConcat(xs: seq<Range>, ys: seq<Range>, a: nat)
    ensures Holds(xs + ys, a) <==> Holds(xs, a) || Holds(ys, a)
  {
    if Holds(xs, a) {
      var i: nat :| i < |xs| && InRange(xs[i], a);
      HoldsAt(xs + ys, i, a);
    }
    if Holds(ys, a) {
      var i: nat :| i < |ys| && InRange(ys[i], a);
      HoldsAt(xs + ys, |xs| + i, a);
    }
    if Holds(xs + ys, a) {
      var i: nat :| i < |xs + ys| && InRange((xs + ys)[i], a);
      if i < |xs| { HoldsAt(xs, i, a); } else { HoldsAt(ys, i - |xs|, a); }
    }
  }

  lemma HoldsOne(r: Range, a: nat)
    ensures Holds([r], a) <==> InRange(r, a)
  {
    if InRange(r, a) { HoldsAt([r], 0, a); }
  }

  lemma HoldsNone(a: nat)
    ensures !Holds([], a)
  {
  }

  lemma CanonicalTail(rs: seq<Range>, k: nat)
    requires Canonical(rs) && k <= |rs|
    ensures Canonical(rs[k..]) && Canonical(rs[..k])
  {
  }

  /** Everything a canonical array holds lies at or behind its first range. */
  lemma HoldsFrom(rs: seq<Range>, a: nat)
    requires Canonical(rs) && rs != [] && Holds(rs, a)
    ensures rs[0].base <= a
  {
  }

  /** The array is the only canonical one with its meaning. */
  lemma {:induction false} CanonicalUnique(rs: seq<Range>, qs: seq<Range>)
    requires Canonical(rs) && Canonical(qs)
    requires forall a: nat :: Holds(rs, a) <==> Holds(qs, a)
    ensures rs == qs
    decreases |rs|
  {
    if rs == [] {
      if qs != [] {
        assert Proper(qs[0]);
        HoldsAt(qs, 0, qs[0].base);
        HoldsNone(qs[0].base);
      }
    } else {
      assert Proper(rs[0]);
      HoldsAt(rs, 0, rs[0].base);
      HeadAgrees(rs, qs);
      CanonicalTail(rs, 1);
      CanonicalTail(qs, 1);
      forall a: nat ensures Holds(rs[1..], a) <==> Holds(qs[1..], a) {
        TailHolds(rs, a);
        TailHolds(qs, a);
      }
      CanonicalUnique(rs[1..], qs[1..]);
      assert rs == [rs[0]] + rs[1..] && qs == [qs[0]] + qs[1..];
    }
  }

  lemma TailHolds(rs: seq<Range>, a: nat)
    requires Canonical(rs) && rs != []
    ensures Holds(rs[1..], a) <==> Holds(rs, a) && !InRange(rs[0], a)
  {
    assert rs == [rs[0]] + rs[1..];
    HoldsConcat([rs[0]], rs[1..], a);
    HoldsOne(rs[0], a);
    if Holds(rs[1..], a) {
      CanonicalTail(rs, 1);
      HoldsFrom(rs[1..], a);
      assert rs[1..][0] == rs[1];
    }
  }

  /** The end of a range is never free. */
  lemma EndIsTaken(rs: seq<Range>, i: nat)
    requires Canonical(rs) && i < |rs|
    ensures !Holds(rs, rs[i].End())
  {
    forall j: nat | j < |rs| ensures !InRange(rs[j], rs[i].End()) {
      if j < i {
        assert rs[j].End() < rs[i].base;
      }
    }
  }

  lemma HeadAgrees(rs: seq<Range>, qs: seq<Range>)
    requires Canonical(rs) && Canonical(qs) && rs != [] && qs != []
    requires forall a: nat :: Holds(rs, a) <==> Holds(qs, a)
    ensures rs[0] == qs[0]
  {
    assert Proper(rs[0]) && Proper(qs[0]);
    HoldsAt(rs, 0, rs[0].base);
    HoldsAt(qs, 0, qs[0].base);
    HoldsFrom(rs, qs[0].base);
    HoldsFrom(qs, rs[0].base);
    EndIsTaken(rs, 0);
    EndIsTaken(qs, 0);
    HoldsIf(qs, 0, rs[0].End());
    HoldsIf(rs, 0, qs[0].End());
  }

  lemma HoldsIf(rs: seq<Range>, i: nat, a: nat)
    requires i < |rs|
    ensures InRange(rs[i], a) ==> Holds(rs, a)
  {
  }

  /** A free stretch lies inside one range. */
  lemma StretchInOne(rs: seq<Range>, lo: nat, hi: nat) returns (i: nat)
    requires Canonical(rs) && lo < hi && forall a: nat | lo <= a < hi :: Holds(rs, a)
    ensures i < |rs| && rs[i].base <= lo && hi <= rs[i].End()
  {
    assert Holds(rs, lo);
    i :| i < |rs| && InRange(rs[i], lo);
    EndIsTaken(rs, i);
  }

  // ------------------------------------------------------------ adding a range

  /** How many ranges start below `base`. */
  function InsertPoint(rs: seq<Range>, base: nat): (n: nat)
    ensures n <= |rs|
    ensures forall i: nat | i < n :: rs[i].base < base
    ensures n < |rs| ==> rs[n].base >= base
  {
    if rs == [] || rs[0].base >= base then 0 else 1 + InsertPoint(rs[1..], base)
  }

  datatype Outcome = Refused | Now(ranges: seq<Range>)

  /** `append_free_range` on the array as a value. */
  function Appended(rs: seq<Range>, base: nat, pages: nat): Outcome {
    if pages == 0 then Now(rs)
    else if |rs| >= MAX_RANGES then Refused
    else
      var i := InsertPoint(rs, base);
      var end := base + pages * PAGE_SIZE;
      if i < |rs| && end > rs[i].base then Refused
      else Now(Grown(rs, i, base, pages))
  }

  /** A block placed at `i`: it grows the range before it, the one behind it or both, or stands
      alone. */
  function Grown(rs: seq<Range>, i: nat, base: nat, pages: nat): seq<Range>
    requires i <= |rs|
  {
    var end := base + pages * PAGE_SIZE;
    if i > 0 && rs[i - 1].End() == base then
      if i < |rs| && end == rs[i].base then
        rs[..i - 1] + [Range(rs[i - 1].base, rs[i - 1].pages + pages + rs[i].pages)] + rs[i + 1..]
      else
        rs[..i - 1] + [Range(rs[i - 1].base, rs[i - 1].pages + pages)] + rs[i..]
    else if i < |rs| && end == rs[i].base then
      rs[..i] + [Range(base, pages + rs[i].pages)] + rs[i + 1..]
    else
      rs[..i] + [Range(base, pages)] + rs[i..]
  }

  lemma GrownCases(rs: seq<Range>, i: nat, base: nat, pages: nat)
    requires i <= |rs|
    ensures i > 0 && rs[i - 1].End() == base ==>
              Grown(rs, i, base, pages) ==
              if i < |rs| && base + pages * PAGE_SIZE == rs[i].base
              then rs[..i - 1] + [Range(rs[i - 1].base, rs[i - 1].pages + pages + rs[i].pages)] + rs[i + 1..]
              else rs[..i - 1] + [Range(rs[i - 1].base, rs[i - 1].pages + pages)] + rs[i..]
    ensures !(i > 0 && rs[i - 1].End() == base) ==>
              Grown(rs, i, base, pages) ==
              if i < |rs| && base + pages * PAGE_SIZE ==
                rs[i].base then rs[..i] + [Range(base, rs[i].pages + pages)] + rs[i + 1..]
              else rs[..i] + [Range(base, pages)] + rs[i..]
  {
  }

  lemma AppendedCases(rs: seq<Range>, base: nat, pages: nat)
    ensures pages == 0 ==> Appended(rs, base, pages) == Now(rs)
    ensures pages > 0 && |rs| >= MAX_RANGES ==> Appended(rs, base, pages) == Refused
    ensures var i, end := InsertPoint(rs, base), base + pages * PAGE_SIZE;
            pages > 0 && |rs| < MAX_RANGES ==>
              Appended(rs, base, pages) ==
              if i < |rs| && end > rs[i].base then Refused else Now(Grown(rs, i, base, pages))
  {
    hide InsertPoint, Grown;
  }

  /** No free range that starts below `base` reaches beyond it: the one overlap the function
      does not look for. */
  ghost predicate ClearBehind(rs: seq<Range>, base: nat) {
    forall i: nat | i < |rs| && rs[i].base < base :: rs[i].End() <= base
  }

  ghost predicate ClearOf(rs: seq<Range>, lo: nat, hi: nat) {
    forall a: nat | lo <= a < hi :: !Holds(rs, a)
  }

  /** The three stretches of a canonical array around an inserted interval. */
  lemma Middle(front: seq<Range>, mid: Range, back: seq<Range>)
    requires Canonical(front) && Canonical(back) && Proper(mid)
    requires front != [] ==> front[|front| - 1].End() < mid.base
    requires back != [] ==> mid.End() < back[0].base
    ensures Canonical(front + [mid] + back)
  {
    var rs := front + [mid] + back;
    assert forall i: nat | i < |front| :: front[i].End() < mid.base by {
      forall i: nat | i < |front| ensures front[i].End() < mid.base {
        assert i < |front| - 1 ==> front[i].End() < front[|front| - 1].base;
        assert Proper(front[|front| - 1]);
      }
    }
    assert forall j: nat | j < |back| :: mid.End() < back[j].base by {
      forall j: nat | j < |back| ensures mid.End() < back[j].base {
        assert j > 0 ==> back[0].End() < back[j].base;
        assert Proper(back[0]);
      }
    }
    forall i: nat | i < |rs| ensures Proper(rs[i]) {
      assert rs[i] == if i < |front| then front[i] else if i == |front| then mid else back[i - |front| - 1];
    }
    forall i: nat, j: nat | i < j < |rs| ensures rs[i].End() < rs[j].base {
      assert rs[i] == if i < |front| then front[i] else if i == |front| then mid else back[i - |front| - 1];
      assert rs[j] == if j < |front| then front[j] else if j == |front| then mid else back[j - |front| - 1];
    }
  }

  lemma HoldsMiddle(front: seq<Range>, mid: Range, back: seq<Range>, a: nat)
    ensures Holds(front + [mid] + back, a) <==> Holds(front, a) || InRange(mid, a) || Holds(back, a)
  {
    HoldsConcat(front + [mid], back, a);
    HoldsConcat(front, [mid], a);
    HoldsOne(mid, a);
  }

  /** Cutting the array where a range starts below `base` or not. */
  lemma SplitAt(rs: seq<Range>, i: nat, a: nat)
    requires i <= |rs|
    ensures Holds(rs, a) <==> Holds(rs[..i], a) || Holds(rs[i..], a)
  {
    assert rs == rs[..i] + rs[i..];
    HoldsConcat(rs[..i], rs[i..], a);
  }

  lemma LastOf(rs: seq<Range>, i: nat, a: nat)
    requires 0 < i <= |rs|
    ensures Holds(rs[..i], a) <==> Holds(rs[..i - 1], a) || InRange(rs[i - 1], a)
  {
    assert rs[..i] == rs[..i - 1] + [rs[i - 1]];
    HoldsConcat(rs[..i - 1], [rs[i - 1]], a);
    HoldsOne(rs[i - 1], a);
  }

  lemma FirstOf(rs: seq<Range>, i: nat, a: nat)
    requires i < |rs|
    ensures Holds(rs[i..], a) <==> InRange(rs[i], a) || Holds(rs[i + 1..], a)
  {
    assert rs[i..] == [rs[i]] + rs[i + 1..];
    HoldsConcat([rs[i]], rs[i + 1..], a);
    HoldsOne(rs[i], a);
  }

  /** Where and how a new range joins: behind the first `f` ranges and in front of range `b`,
      merged with the neighbours it touches. */
  datatype Joint = Joint(f: nat, mid: Range, b: nat)

  function JointOf(rs: seq<Range>, base: nat, pages: nat): (j: Joint)
    ensures j.f <= j.b <= |rs|
  {
    var i := InsertPoint(rs, base);
    var prev := i > 0 && rs[i - 1].End() == base;
    var next := i < |rs| && base + pages * PAGE_SIZE == rs[i].base;
    Joint(if prev then i - 1 else i,
          Range(if prev then rs[i - 1].base else base,
                (if prev then rs[i - 1].pages else 0) + pages + (if next then rs[i].pages else 0)),
          if next then i + 1 else i)
  }

  lemma AppendShape(rs: seq<Range>, base: nat, pages: nat)
    requires pages > 0 && Appended(rs, base, pages).Now?
    ensures var j := JointOf(rs, base, pages); Appended(rs, base, pages).ranges == rs[..j.f] + [j.mid] + rs[j.b..]
  {
  }

  lemma JointEnds(rs: seq<Range>, base: nat, pages: nat)
    requires Canonical(rs) && base % PAGE_SIZE == 0 && ClearBehind(rs, base) && pages > 0
             && Appended(rs, base, pages).Now?
    ensures var j := JointOf(rs, base, pages);
            && Proper(j.mid)
            && (j.f > 0 ==> rs[j.f - 1].End() < j.mid.base)
            && (j.b < |rs| ==> j.mid.End() < rs[j.b].base)
  {
    var i := InsertPoint(rs, base);
    if i > 0 {
      assert Proper(rs[i - 1]);
      assert rs[i - 1].base < base && rs[i - 1].End() <= base;
    }
  }

  lemma JointMeans(rs: seq<Range>, base: nat, pages: nat, a: nat)
    ensures var j := JointOf(rs, base, pages);
            Holds(rs[..j.f], a) || InRange(j.mid, a) || Holds(rs[j.b..], a) <==>
            Holds(rs, a) || Within(base, base + pages * PAGE_SIZE, a)
  {
    hide Holds;
    var i := InsertPoint(rs, base);
    SplitAt(rs, i, a);
    if i > 0 && rs[i - 1].End() == base { LastOf(rs, i, a); }
    if i < |rs| && base + pages * PAGE_SIZE == rs[i].base { FirstOf(rs, i, a); }
  }

  /** A range joins an array it does not overlap: afterwards exactly its pages are free besides
      the ones before, again in the canonical form. */
  lemma AppendAdds(rs: seq<Range>, base: nat, pages: nat)
    requires Canonical(rs) && base % PAGE_SIZE == 0 && ClearBehind(rs, base) && Appended(rs, base, pages).Now?
    ensures var rs' := Appended(rs, base, pages).ranges;
            && Canonical(rs')
            && forall a: nat :: Holds(rs', a) <==> Holds(rs, a) || Within(base, base + pages * PAGE_SIZE, a)
  {
    if pages > 0 {
      AppendShape(rs, base, pages);
      JointEnds(rs, base, pages);
      hide Appended, ClearBehind, Canonical, Holds, JointOf, Proper;
      var j := JointOf(rs, base, pages);
      CanonicalTail(rs, j.f);
      CanonicalTail(rs, j.b);
      Middle(rs[..j.f], j.mid, rs[j.b..]);
      forall a: nat ensures Holds(Appended(rs, base, pages).ranges, a) <==>
        Holds(rs, a) || Within(base, base + pages * PAGE_SIZE, a) {
        HoldsMiddle(rs[..j.f], j.mid, rs[j.b..], a);
        JointMeans(rs, base, pages, a);
      }
    }
  }

  /** Refusals: a full array, or overlap with a range at or behind `base`. */
  lemma AppendRefuses(rs: seq<Range>, base: nat, pages: nat)
    requires Canonical(rs) && ClearBehind(rs, base)
    ensures Appended(rs, base, pages).Refused? <==>
            pages > 0 && (|rs| >= MAX_RANGES || !ClearOf(rs, base, base + pages * PAGE_SIZE))
  {
    if pages > 0 && |rs| < MAX_RANGES {
      var i := InsertPoint(rs, base);
      var end := base + pages * PAGE_SIZE;
      if i < |rs| && end > rs[i].base {
        assert Proper(rs[i]);
        HoldsAt(rs, i, rs[i].base);
      } else {
        forall a: nat | base <= a < end ensures !Holds(rs, a) {
          forall j: nat | j < |rs| ensures !InRange(rs[j], a) {
            if j > i { assert rs[i].End() < rs[j].base; }
          }
        }
      }
    }
  }

  /** The unchecked overlap: a range that starts inside an earlier one is never refused for it,
      and the array is then no longer a set of disjoint ranges. */
  lemma OverlapBehindBreaks(rs: seq<Range>, base: nat, pages: nat)
    requires Canonical(rs) && base % PAGE_SIZE == 0 && pages > 0 && Appended(rs, base, pages).Now?
    ensures Canonical(Appended(rs, base, pages).ranges) <==> ClearBehind(rs, base)
  {
    if ClearBehind(rs, base) {
      AppendAdds(rs, base, pages);
    } else {
      var k: nat :| k < |rs| && rs[k].base < base && rs[k].End() > base;
      BehindIsLast(rs, base, k);
      AppendShape(rs, base, pages);
      hide Appended;
      var rs', j := Appended(rs, base, pages).ranges, JointOf(rs, base, pages);
      assert j.f == k + 1 && j.mid.base == base;
      assert rs'[k] == rs[k] && rs'[k + 1] == j.mid;
    }
  }

  lemma BehindIsLast(rs: seq<Range>, base: nat, k: nat)
    requires Canonical(rs) && k < |rs| && rs[k].base < base && rs[k].End() > base
    ensures InsertPoint(rs, base) == k + 1
  {
    assert forall j: nat | k < j < |rs| :: rs[k].End() < rs[j].base;
  }

  // --------------------------------------------------------- reserving a range

  /** What is left of one range when [lo, hi) goes. */
  function Cut(r: Range, lo: nat, hi: nat): seq<Range> {
    if hi <= r.base || lo >= r.End() then [r]
    else if lo <= r.base && hi >= r.End() then []
    else if lo <= r.base then [Range(hi, (r.End() - hi) / PAGE_SIZE)]
    else if hi >= r.End() then [Range(r.base, (lo - r.base) / PAGE_SIZE)]
    else [Range(r.base, (lo - r.base) / PAGE_SIZE), Range(hi, (r.End() - hi) / PAGE_SIZE)]
  }

  function Reserved(rs: seq<Range>, lo: nat, hi: nat): seq<Range> {
    if rs == [] then [] else Cut(rs[0], lo, hi) + Reserved(rs[1..], lo, hi)
  }

  lemma CutHolds(r: Range, lo: nat, hi: nat, a: nat)
    requires Proper(r) && lo < hi && lo % PAGE_SIZE == 0 && hi % PAGE_SIZE == 0
    ensures Holds(Cut(r, lo, hi), a) <==> InRange(r, a) && !Within(lo, hi, a)
    ensures Canonical(Cut(r, lo, hi))
    ensures forall i: nat | i < |Cut(r, lo, hi)| ::
            r.base <= Cut(r, lo, hi)[i].base && Cut(r, lo, hi)[i].End() <= r.End()
  {
    var left, right := Range(r.base, if lo > r.base then (lo - r.base) / PAGE_SIZE
      else 0), Range(hi, if hi < r.End() then (r.End() - hi) / PAGE_SIZE else 0);
    HoldsNone(a);
    HoldsOne(r, a);
    HoldsOne(left, a);
    HoldsOne(right, a);
    HoldsConcat([left], [right], a);
    CutEnds(r, lo, hi);
    assert [left] + [right] == [left, right];
    hide Holds;
  }

  lemma CutEnds(r: Range, lo: nat, hi: nat)
    requires Proper(r) && lo < hi && lo % PAGE_SIZE == 0 && hi % PAGE_SIZE == 0
    ensures lo > r.base ==> Range(r.base, (lo - r.base) / PAGE_SIZE).End() == lo && (lo - r.base) / PAGE_SIZE > 0
    ensures hi < r.End() ==> Range(hi, (r.End() - hi) / PAGE_SIZE).End() == r.End() && (r.End() - hi) / PAGE_SIZE > 0
  {
  }

  /** Exactly the interval leaves the set, and the array stays canonical. */
  lemma {:induction false} ReservedRemoves(rs: seq<Range>, lo: nat, hi: nat)
    requires Canonical(rs) && lo < hi && lo % PAGE_SIZE == 0 && hi % PAGE_SIZE == 0
    ensures Canonical(Reserved(rs, lo, hi))
    ensures forall a: nat :: Holds(Reserved(rs, lo, hi), a) <==> Holds(rs, a) && !Within(lo, hi, a)
    ensures rs != [] ==> forall i: nat | i < |Reserved(rs, lo, hi)| :: rs[0].base <= Reserved(rs, lo, hi)[i].base
    decreases |rs|
  {
    if rs == [] {
      forall a: nat ensures !Holds(rs, a) { HoldsNone(a); }
    } else {
      assert Proper(rs[0]);
      CanonicalTail(rs, 1);
      ReservedRemoves(rs[1..], lo, hi);
      var cut, rest := Cut(rs[0], lo, hi), Reserved(rs[1..], lo, hi);
      forall a: nat ensures Holds(cut + rest, a) <==> Holds(rs, a) && !Within(lo, hi, a) {
        CutHolds(rs[0], lo, hi, a);
        HoldsConcat(cut, rest, a);
        TailHolds(rs, a);
      }
      CutHolds(rs[0], lo, hi, 0);
      Behind(cut, rest, rs, lo, hi);
    }
  }

  lemma Behind(cut: seq<Range>, rest: seq<Range>, rs: seq<Range>, lo: nat, hi: nat)
    requires Canonical(rs) && rs != [] && Canonical(cut) && Canonical(rest)
    requires forall i: nat | i < |cut| :: rs[0].base <= cut[i].base && cut[i].End() <= rs[0].End()
    requires |rs| > 1 ==> forall i: nat | i < |rest| :: rs[1].base <= rest[i].base
    requires |rs| == 1 ==> rest == []
    ensures Canonical(cut + rest) && forall i: nat | i < |cut + rest| :: rs[0].base <= (cut + rest)[i].base
  {
    assert |rs| > 1 ==> rs[0].End() < rs[1].base;
    var all := cut + rest;
    forall i: nat | i < |all| ensures Proper(all[i]) && rs[0].base <= all[i].base {
      assert all[i] == if i < |cut| then cut[i] else rest[i - |cut|];
    }
    forall i: nat, j: nat | i < j < |all| ensures all[i].End() < all[j].base {
      assert all[i] == if i < |cut| then cut[i] else rest[i - |cut|];
      assert all[j] == if j < |cut| then cut[j] else rest[j - |cut|];
    }
  }

  // ------------------------------------------------------------- taking pages

  /** The first range with at least `n` pages. */
  function FirstFit(rs: seq<Range>, n: nat): (i: nat)
    ensures i <= |rs|
    ensures i < |rs| ==> rs[i].pages >= n
    ensures forall j: nat | j < i :: rs[j].pages < n
  {
    if rs == [] || rs[0].pages >= n then 0 else 1 + FirstFit(rs[1..], n)
  }

  /** `alloc_pages` on the array as a value. */
  function Taken(rs: seq<Range>, n: nat): (seq<Range>)
    requires FirstFit(rs, n) < |rs|
  {
    var i := FirstFit(rs, n);
    if rs[i].pages == n then rs[..i] + rs[i + 1..]
    else rs[i := Range(rs[i].base + n * PAGE_SIZE, rs[i].pages - n)]
  }

  /** `n` consecutive free pages from address `a`. */
  ghost predicate FreeRun(rs: seq<Range>, a: nat, n: nat) {
    a % PAGE_SIZE == 0 && forall x: nat | a <= x < a + n * PAGE_SIZE :: Holds(rs, x)
  }

  /** The first fit is the lowest run of free pages there is, and without one there is none. */
  lemma FitIsLowest(rs: seq<Range>, n: nat)
    requires Canonical(rs) && n > 0
    ensures FirstFit(rs, n) < |rs| ==> FreeRun(rs, rs[FirstFit(rs, n)].base, n)
    ensures FirstFit(rs, n) < |rs| ==> forall a: nat | FreeRun(rs, a, n) :: rs[FirstFit(rs, n)].base <= a
    ensures FirstFit(rs, n) == |rs| ==> forall a: nat :: !FreeRun(rs, a, n)
  {
    var i := FirstFit(rs, n);
    if i < |rs| {
      assert Proper(rs[i]);
      forall x: nat | rs[i].base <= x < rs[i].base + n * PAGE_SIZE ensures Holds(rs, x) {
        HoldsAt(rs, i, x);
      }
    }
    forall a: nat | FreeRun(rs, a, n) ensures i < |rs| && rs[i].base <= a {
      var k := StretchInOne(rs, a, a + n * PAGE_SIZE);
      assert k >= i;
      assert k > i ==> rs[i].End() < rs[k].base;
    }
  }

  /** What remains of range `i` once its first `n` pages are gone. */
  function Leftover(r: Range, n: nat): seq<Range> {
    if r.pages > n then [Range(r.base + n * PAGE_SIZE, r.pages - n)] else []
  }

  lemma TakenShape(rs: seq<Range>, n: nat)
    requires FirstFit(rs, n) < |rs|
    ensures var i := FirstFit(rs, n); Taken(rs, n) == rs[..i] + Leftover(rs[i], n) + rs[i + 1..]
  {
  }

  lemma LeftoverHolds(r: Range, n: nat, a: nat)
    requires r.pages >= n
    ensures Holds(Leftover(r, n), a) <==> InRange(r, a) && !Within(r.base, r.base + n * PAGE_SIZE, a)
  {
    HoldsNone(a);
    if r.pages > n { HoldsOne(Leftover(r, n)[0], a); }
  }

  /** Exactly the run leaves the set. */
  lemma TakenRemoves(rs: seq<Range>, n: nat)
    requires Canonical(rs) && n > 0 && FirstFit(rs, n) < |rs|
    ensures var base := rs[FirstFit(rs, n)].base;
            && Canonical(Taken(rs, n))
            && forall a: nat :: Holds(Taken(rs, n), a) <==> Holds(rs, a) && !Within(base, base + n * PAGE_SIZE, a)
  {
    hide Taken, Canonical, Holds, Leftover, FirstFit, Proper;
    var i := FirstFit(rs, n);
    var base := rs[i].base;
    TakenCanonical(rs, n);
    TakenShape(rs, n);
    forall a: nat ensures Holds(Taken(rs, n), a) <==> Holds(rs, a) && !Within(base, base + n * PAGE_SIZE, a) {
      HoldsConcat(rs[..i] + Leftover(rs[i], n), rs[i + 1..], a);
      HoldsConcat(rs[..i], Leftover(rs[i], n), a);
      LeftoverHolds(rs[i], n, a);
      SplitAt(rs, i, a);
      FirstOf(rs, i, a);
      if InRange(rs[i], a) { AroundRange(rs, i, a); }
    }
  }

  lemma TakenCanonical(rs: seq<Range>, n: nat)
    requires Canonical(rs) && n > 0 && FirstFit(rs, n) < |rs|
    ensures Canonical(Taken(rs, n))
  {
    hide Canonical, Taken;
    var i := FirstFit(rs, n);
    TakenShape(rs, n);
    CanonicalTail(rs, i);
    CanonicalTail(rs, i + 1);
    Neighbours(rs, i);
    if rs[i].pages > n {
      var left := Range(rs[i].base + n * PAGE_SIZE, rs[i].pages - n);
      Middle(rs[..i], left, rs[i + 1..]);
    } else {
      assert Taken(rs, n) == rs[..i] + rs[i + 1..];
      CloseUp(rs, i);
    }
  }

  lemma Neighbours(rs: seq<Range>, i: nat)
    requires Canonical(rs) && i < |rs|
    ensures Proper(rs[i]) && (i > 0 ==> rs[i - 1].End() < rs[i].base) && (i + 1 < |rs| ==> rs[i].End() < rs[i + 1].base)
  {
  }

  lemma CloseUp(rs: seq<Range>, i: nat)
    requires Canonical(rs) && i < |rs|
    ensures Canonical(rs[..i] + rs[i + 1..])
  {
    var rest := rs[..i] + rs[i + 1..];
    forall j: nat, k: nat | j < k < |rest| ensures rest[j].End() < rest[k].base {
      assert rest[j] == rs[if j < i then j else j + 1] && rest[k] == rs[if k < i then k else k + 1];
    }
    forall j: nat | j < |rest| ensures Proper(rest[j]) {
      assert rest[j] == rs[if j < i then j else j + 1];
    }
  }

  /** The ranges on either side hold nothing of range `i`. */
  lemma AroundRange(rs: seq<Range>, i: nat, a: nat)
    requires Canonical(rs) && i < |rs| && InRange(rs[i], a)
    ensures !Holds(rs[..i], a) && !Holds(rs[i + 1..], a)
  {
    forall j: nat | j < i ensures !InRange(rs[..i][j], a) {
      assert rs[j].End() < rs[i].base;
    }
    var back := rs[i + 1..];
    forall j: nat | j < |back| ensures !InRange(back[j], a) {
      assert rs[i].End() < rs[i + 1 + j].base;
    }
  }
}
