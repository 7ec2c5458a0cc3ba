/** A directory as a row of slots, and the name map it stands for. */
module FatDirectory {
  import opened Bytes
  import opened FatSlots
  import opened FatNames

  /** A live name: `lfns` long-name pieces from slot `start`, then the short entry. */
  datatype Group = Group(start: nat, lfns: nat, name: Str, entry: Slot) {
    function Last(): nat { start + lfns }
  }

  /** Live names by their case-folded form. */
  type View = map<Str, Group>

  ghost predicate GroupAt(slots: seq<Slot>, g: Group) {
    && g.Last() < |slots|
    && slots[g.Last()] == g.entry
    && IsLive(g.entry) && !IsLfn(g.entry)
    && Named(slots[g.start..g.Last()], g)
  }

  /** The group's pieces and short entry spell its name. */
  ghost predicate Named(pieces: seq<Slot>, g: Group) {
    && |pieces| == g.lfns
    && 0 !in g.name
    && if g.lfns == 0 then g.name == FormatShort(RawName(g.entry))
       else ValidName(g.name) && ArePieces(pieces, g.name, Checksum(RawName(g.entry)))
  }

  ghost predicate Separate(g: Group, h: Group) {
    g.Last() < h.start || h.Last() < g.start
  }

  ghost predicate Within(g: Group, p: nat) {
    g.start <= p <= g.Last()
  }

  ghost predicate Covered(view: View, p: nat) {
    exists k | k in view :: Within(view[k], p)
  }

  /** Slots before `p` neither end the directory nor carry the long-name attribute next to `p`. */
  predicate CleanBefore(slots: seq<Slot>, p: nat)
    requires p <= |slots|
  {
    p == 0 || (!IsEnd(slots[p - 1]) && !IsLfn(slots[p - 1]))
  }

  ghost predicate Entered(slots: seq<Slot>, view: View, k: Str)
    requires k in view
  {
    var g := view[k];
    && Fold(g.name) == k
    && GroupAt(slots, g)
    && CleanBefore(slots, g.start)
    && (IsSpecial(g.entry) <==> k == [DOT] || k == [DOT, DOT])
  }

  ghost predicate Distinct(g: Group, h: Group) {
    Separate(g, h) && RawName(g.entry) != RawName(h.entry)
  }

  /** After the first end slot there are only end slots. */
  ghost predicate EndsOnce(slots: seq<Slot>) {
    forall p: nat, q: nat | p < q < |slots| && IsEnd(slots[p]) :: IsEnd(slots[q])
  }

  ghost predicate AllEntered(slots: seq<Slot>, view: View) {
    forall k | k in view :: Entered(slots, view, k)
  }

  ghost predicate AllDistinct(view: View) {
    forall k, l | k in view && l in view && k != l :: Distinct(view[k], view[l])
  }

  ghost predicate AllCovered(slots: seq<Slot>, view: View) {
    forall p: nat | p < |slots| && !IsFreeSlot(slots[p]) :: Covered(view, p)
  }

  /** The directory invariant kept by every operation. */
  ghost predicate ValidDirectory(slots: seq<Slot>, view: View) {
    AllEntered(slots, view) && AllDistinct(view) && AllCovered(slots, view) && EndsOnce(slots)
  }

  ghost function UsedNames(view: View): set<Raw> {
    set k | k in view :: RawName(view[k].entry)
  }

  // ----------------------------------------------------------- scanning

  /** The reader after one slot that did not end the search. */
  function Step(s: Slot, st: LfnState): LfnState {
    if !IsDeleted(s) && IsLfn(s) then ProcessLfn(s, st) else Reset(st)
  }

  function Scan(slots: seq<Slot>, st: LfnState, p: nat): LfnState
    requires p <= |slots|
  {
    if p == 0 then st else Step(slots[p - 1], Scan(slots, st, p - 1))
  }

  lemma ScanClean(slots: seq<Slot>, st: LfnState, p: nat)
    requires p <= |slots| && CleanBefore(slots, p) && !st.active
    ensures !Scan(slots, st, p).active
  {
  }

  lemma {:induction false} ScanPieces(slots: seq<Slot>, st: LfnState, from: nat, n: nat)
    requires from + n <= |slots|
    requires forall p: nat | from <= p < from + n :: IsLfn(slots[p]) && !IsFreeSlot(slots[p])
    ensures Scan(slots, st, from + n) == RunLfn(slots[from..from + n], Scan(slots, st, from))
    decreases n
  {
    hide ProcessLfn, Reset, Attributes;
    if n > 0 {
      assert slots[from..from + n][..n - 1] == slots[from..from + n - 1];
      ScanPieces(slots, st, from, n - 1);
    }
  }

  lemma PiecesAreLive(slots: seq<Slot>, g: Group)
    requires GroupAt(slots, g)
    ensures forall p: nat | g.start <= p < g.Last() :: IsLfn(slots[p]) && !IsFreeSlot(slots[p])
  {
    var pieces := slots[g.start..g.Last()];
    forall p: nat | g.start <= p < g.Last() ensures IsLfn(slots[p]) && !IsFreeSlot(slots[p]) {
      assert slots[p] == pieces[p - g.start];
      assert IsPiece(pieces[p - g.start], g.name, |pieces| - (p - g.start), p == g.start, Checksum(RawName(g.entry)));
    }
  }

  /** Scanning from the start, the reader arrives at a group's short entry ready to name it. */
  lemma ScanNames(slots: seq<Slot>, st: LfnState, g: Group)
    requires GroupAt(slots, g) && CleanBefore(slots, g.start) && !st.active
    ensures DecodeName(g.entry, Scan(slots, st, g.Last())) == g.name
    ensures HasLongName(g.entry, Scan(slots, st, g.Last())) <==> g.lfns > 0
  {
    hide Scan, RunLfn, Checksum, FormatShort, ValidName, ArePieces, CleanBefore;
    ScanClean(slots, st, g.start);
    if g.lfns > 0 {
      PiecesAreLive(slots, g);
      ScanPieces(slots, st, g.start, g.lfns);
      PiecesDecode(slots[g.start..g.Last()], g, Scan(slots, st, g.start));
    }
  }

  lemma PiecesDecode(pieces: seq<Slot>, g: Group, from: LfnState)
    requires Named(pieces, g) && g.lfns > 0
    ensures DecodeName(g.entry, RunLfn(pieces, from)) == g.name && HasLongName(g.entry, RunLfn(pieces, from))
  {
    ReadPieces(pieces, g.name, Checksum(RawName(g.entry)), from, |pieces|);
    assert pieces[..|pieces|] == pieces;
    ReadingDone(RunLfn(pieces, from), g.name, g.entry);
  }

  // -------------------------------------------------------- abstraction facts

  /** A live, non-LFN slot is the short entry of exactly one group. */
  lemma EntryOfSlot(slots: seq<Slot>, view: View, p: nat) returns (k: Str)
    requires ValidDirectory(slots, view) && p < |slots|
    requires !IsFreeSlot(slots[p]) && !IsLfn(slots[p])
    ensures k in view && view[k].Last() == p
  {
    hide Named, EndsOnce, AllDistinct, Fold;
    assert Covered(view, p);
    k :| k in view && Within(view[k], p);
    assert Entered(slots, view, k);
    PiecesAreLive(slots, view[k]);
  }

  /** Groups use only live slots. */
  lemma GroupSlotsUsed(slots: seq<Slot>, view: View, k: Str)
    requires ValidDirectory(slots, view) && k in view
    ensures GroupAt(slots, view[k])
    ensures forall p: nat | Within(view[k], p) :: p < |slots| && !IsFreeSlot(slots[p])
  {
    hide Named, EndsOnce, AllDistinct, AllCovered, Fold;
    assert Entered(slots, view, k);
    PiecesAreLive(slots, view[k]);
  }

  /** The slot in front of a live group never carries the long-name attribute, so counting
      LFN slots backwards from a short entry counts exactly that name's own. */
  lemma SlotBeforeGroup(slots: seq<Slot>, view: View, k: Str)
    requires ValidDirectory(slots, view) && k in view
    ensures GroupAt(slots, view[k])
    ensures view[k].start > 0 ==> !IsLfn(slots[view[k].start - 1])
    ensures view[k].Last() == view[k].start + view[k].lfns
    ensures forall p: nat | view[k].start <= p < view[k].start + view[k].lfns :: IsLfn(slots[p])
  {
    hide Named, EndsOnce, AllDistinct, AllCovered, Fold;
    assert Entered(slots, view, k);
    PiecesAreLive(slots, view[k]);
  }

  /** The front of a free run follows a short entry (or nothing). */
  lemma RunStartClean(slots: seq<Slot>, view: View, a: nat)
    requires ValidDirectory(slots, view) && a <= |slots|
    requires a < |slots| ==> IsFreeSlot(slots[a])
    requires a > 0 ==> !IsFreeSlot(slots[a - 1])
    ensures CleanBefore(slots, a)
  {
    hide Named, EndsOnce, AllDistinct, AllEntered;
    if a > 0 {
      assert Covered(view, a - 1);
      var k :| k in view && Within(view[k], a - 1);
      GroupSlotsUsed(slots, view, k);
      var g := view[k];
      assert a <= g.Last() ==> Within(g, a);
    }
  }

  // ------------------------------------------------------------- updates

  function Overwrite(slots: seq<Slot>, a: nat, entries: seq<Slot>): (r: seq<Slot>)
    requires a + |entries| <= |slots|
    ensures |r| == |slots|
    ensures forall p: nat | p < |slots| :: r[p] == if a <= p < a + |entries| then entries[p - a] else slots[p]
  {
    slots[..a] + entries + slots[a + |entries|..]
  }

  function MarkDeleted(slots: seq<Slot>, a: nat, n: nat): (r: seq<Slot>)
    requires a + n <= |slots|
    ensures |r| == |slots|
    ensures forall p: nat | p < |slots| :: r[p] == if a <= p < a + n then Deleted(slots[p]) else slots[p]
  {
    seq(|slots|, p requires 0 <= p < |slots| => if a <= p < a + n then Deleted(slots[p]) else slots[p])
  }

  /** Slots of `view` outside the changed stretch keep their meaning. */
  ghost predicate Kept(slots: seq<Slot>, slots': seq<Slot>, g: Group) {
    forall p: nat | Within(g, p) :: p < |slots| && p < |slots'| && slots'[p] == slots[p]
  }

  lemma GroupFrame(slots: seq<Slot>, slots': seq<Slot>, g: Group)
    requires GroupAt(slots, g) && Kept(slots, slots', g)
    ensures GroupAt(slots', g)
  {
    hide Named;
    assert Within(g, g.Last());
    forall p: nat | g.start <= p < g.Last() ensures slots'[p] == slots[p] {
      assert Within(g, p);
    }
    assert slots'[g.start..g.Last()] == slots[g.start..g.Last()];
  }

  lemma EnteredFrame(slots: seq<Slot>, slots': seq<Slot>, view: View, view': View, k: Str)
    requires k in view && k in view' && view'[k] == view[k]
    requires Entered(slots, view, k) && Kept(slots, slots', view[k])
    requires view[k].start > 0 ==>
               !IsEnd(slots'[view[k].start - 1]) && Attributes(slots'[view[k].start - 1]) != ATTR_LFN
    ensures Entered(slots', view', k)
  {
    hide Named, Fold;
    GroupFrame(slots, slots', view[k]);
  }

  /** `mark_entry_deleted` takes exactly one name out of the map. */
  lemma DeleteValid(slots: seq<Slot>, view: View, k: Str)
    requires ValidDirectory(slots, view) && k in view
    ensures view[k].Last() < |slots|
    ensures ValidDirectory(MarkDeleted(slots, view[k].start, view[k].lfns + 1), view - {k})
  {
    hide Named, Fold, EndsOnce, GroupAt, CleanBefore, AllDistinct, AllCovered;
    GroupSlotsUsed(slots, view, k);
    assert Within(view[k], view[k].Last());
    var slots' := MarkDeleted(slots, view[k].start, view[k].lfns + 1);
    var view' := view - {k};
    forall l | l in view' ensures Entered(slots', view', l) {
      DeleteEntered(slots, view, k, l);
    }
    DeleteDistinct(view, k);
    DeleteCovered(slots, view, k);
    DeleteEndsOnce(slots, view, k);
  }

  lemma DeleteEntered(slots: seq<Slot>, view: View, k: Str, l: Str)
    requires ValidDirectory(slots, view) && k in view && l in view && k != l && view[k].Last() < |slots|
    ensures Entered(MarkDeleted(slots, view[k].start, view[k].lfns + 1), view - {k}, l)
  {
    hide Named, Fold, EndsOnce, AllCovered;
    var slots' := MarkDeleted(slots, view[k].start, view[k].lfns + 1);
    assert Entered(slots, view, l);
    assert Distinct(view[k], view[l]);
    GroupSlotsUsed(slots, view, l);
    assert Kept(slots, slots', view[l]);
    EnteredFrame(slots, slots', view, view - {k}, l);
  }

  lemma DeleteDistinct(view: View, k: Str)
    requires AllDistinct(view)
    ensures AllDistinct(view - {k})
  {
    hide Distinct;
  }

  lemma DeleteCovered(slots: seq<Slot>, view: View, k: Str)
    requires AllCovered(slots, view) && k in view && view[k].Last() < |slots|
    ensures AllCovered(MarkDeleted(slots, view[k].start, view[k].lfns + 1), view - {k})
  {
    var slots' := MarkDeleted(slots, view[k].start, view[k].lfns + 1);
    forall p: nat | p < |slots'| && !IsFreeSlot(slots'[p]) ensures Covered(view - {k}, p) {
      assert Covered(view, p);
      var l :| l in view && Within(view[l], p);
      assert l in view - {k} && Within((view - {k})[l], p);
    }
  }

  lemma DeleteEndsOnce(slots: seq<Slot>, view: View, k: Str)
    requires ValidDirectory(slots, view) && k in view && view[k].Last() < |slots|
    ensures EndsOnce(MarkDeleted(slots, view[k].start, view[k].lfns + 1))
  {
    hide Named, Fold, AllDistinct, AllCovered, AllEntered;
    var slots' := MarkDeleted(slots, view[k].start, view[k].lfns + 1);
    GroupSlotsUsed(slots, view, k);
    forall p: nat, q: nat | p < q < |slots'| && IsEnd(slots'[p]) ensures IsEnd(slots'[q]) {
      assert slots'[p] == slots[p] && IsEnd(slots[p]);
      assert IsEnd(slots[q]);
      assert !Within(view[k], q);
    }
  }

  /** Room for `n` slots at `a`: free slots with a clean front. */
  ghost predicate Room(slots: seq<Slot>, a: nat, n: nat) {
    && a + n <= |slots|
    && CleanBefore(slots, a)
    && forall p: nat | a <= p < a + n :: IsFreeSlot(slots[p])
  }

  /** `g` may join the directory under `name`. */
  ghost predicate Enterable(view: View, name: Str, g: Group) {
    && Fold(name) !in view && Fold(g.name) == Fold(name)
    && IsLive(g.entry) && !IsSpecial(g.entry) && !IsLfn(g.entry)
    && RawName(g.entry) !in UsedNames(view)
    && name != [DOT] && name != [DOT, DOT]
  }

  /** Writing a name's slots into free room puts exactly that name into the map. */
  lemma InsertValid(slots: seq<Slot>, view: View, name: Str, g: Group, entries: seq<Slot>)
    requires ValidDirectory(slots, view)
    requires Enterable(view, name, g) && Room(slots, g.start, g.lfns + 1)
    requires |entries| == g.lfns + 1 && entries[g.lfns] == g.entry && Named(entries[..g.lfns], g)
    requires forall i | 0 <= i < |entries| :: !IsFreeSlot(entries[i])
    ensures g.start + |entries| <= |slots|
    ensures ValidDirectory(Overwrite(slots, g.start, entries), view[Fold(name) := g])
  {
    hide Named, EndsOnce, Room, AllDistinct, AllCovered, CleanBefore, Enterable, IsFreeSlot, Overwrite, GroupAt;
    InsertedEntered(slots, view, name, g, entries);
    var slots' := Overwrite(slots, g.start, entries);
    var k := Fold(name);
    var view' := view[k := g];
    forall l | l in view' ensures Entered(slots', view', l) {
      if l != k {
        InsertKeeps(slots, view, name, g, entries, l);
      }
    }
    InsertDistinct(slots, view, name, g);
    InsertCovered(slots, view, k, g, entries);
    InsertEndsOnce(slots, g.start, entries);
  }

  lemma InsertedEntered(slots: seq<Slot>, view: View, name: Str, g: Group, entries: seq<Slot>)
    requires Enterable(view, name, g) && Room(slots, g.start, g.lfns + 1)
    requires |entries| == g.lfns + 1 && entries[g.lfns] == g.entry && Named(entries[..g.lfns], g)
    ensures g.start + |entries| <= |slots| && CleanBefore(slots, g.start) && Fold(name) !in view
    ensures Entered(Overwrite(slots, g.start, entries), view[Fold(name) := g], Fold(name))
  {
    hide Named;
    var slots' := Overwrite(slots, g.start, entries);
    FoldDots(name);
    assert slots'[g.Last()] == g.entry;
    assert slots'[g.start..g.Last()] == entries[..g.lfns];
  }

  lemma InsertKeeps(slots: seq<Slot>, view: View, name: Str, g: Group, entries: seq<Slot>, l: Str)
    requires ValidDirectory(slots, view) && l in view && Fold(name) != l
    requires Enterable(view, name, g) && Room(slots, g.start, g.lfns + 1)
    requires |entries| == g.lfns + 1 && entries[g.lfns] == g.entry
    requires forall i | 0 <= i < |entries| :: !IsFreeSlot(entries[i])
    ensures Entered(Overwrite(slots, g.start, entries), view[Fold(name) := g], l)
  {
    hide Named, EndsOnce, AllDistinct, AllCovered, Fold, UsedNames, RawName;
    var slots' := Overwrite(slots, g.start, entries);
    OutsideRoom(slots, view, l, g.start, g.lfns + 1);
    assert Entered(slots, view, l);
    GroupSlotsUsed(slots, view, l);
    assert Kept(slots, slots', view[l]);
    assert slots'[g.Last()] == g.entry;
    EnteredFrame(slots, slots', view, view[Fold(name) := g], l);
  }

  lemma InsertDistinct(slots: seq<Slot>, view: View, name: Str, g: Group)
    requires ValidDirectory(slots, view)
    requires Enterable(view, name, g) && Room(slots, g.start, g.lfns + 1)
    ensures AllDistinct(view[Fold(name) := g])
  {
    hide Named, EndsOnce, AllEntered, AllCovered, Fold, Room, RawName;
    var k := Fold(name);
    forall l | l in view ensures Distinct(view[l], g) && Distinct(g, view[l]) {
      OutsideRoom(slots, view, l, g.start, g.lfns + 1);
      assert RawName(view[l].entry) in UsedNames(view);
    }
  }

  lemma InsertCovered(slots: seq<Slot>, view: View, k: Str, g: Group, entries: seq<Slot>)
    requires AllCovered(slots, view) && k !in view
    requires |entries| == g.lfns + 1 && g.start + |entries| <= |slots|
    ensures AllCovered(Overwrite(slots, g.start, entries), view[k := g])
  {
    hide IsFreeSlot;
    var slots' := Overwrite(slots, g.start, entries);
    var view' := view[k := g];
    forall p: nat | p < |slots'| && !IsFreeSlot(slots'[p]) ensures Covered(view', p) {
      if Within(g, p) {
        assert k in view' && Within(view'[k], p);
      } else {
        assert Covered(view, p);
        var l :| l in view && Within(view[l], p);
        assert l in view' && Within(view'[l], p);
      }
    }
  }

  lemma FoldDots(name: Str)
    requires name != [DOT] && name != [DOT, DOT]
    ensures Fold(name) != [DOT] && Fold(name) != [DOT, DOT]
  {
    assert |name| == 1 ==> name[0] != DOT;
    assert |name| == 2 ==> name[0] != DOT || name[1] != DOT;
  }

  lemma OutsideRoom(slots: seq<Slot>, view: View, l: Str, a: nat, n: nat)
    requires ValidDirectory(slots, view) && l in view && Room(slots, a, n) && n > 0
    ensures view[l].Last() < a || a + n <= view[l].start
  {
    hide ValidDirectory;
    GroupSlotsUsed(slots, view, l);
    var g := view[l];
    assert Within(g, g.start);
    assert g.start <= a <= g.Last() ==> Within(g, a);
  }

  lemma InsertEndsOnce(slots: seq<Slot>, a: nat, entries: seq<Slot>)
    requires EndsOnce(slots) && a + |entries| <= |slots| && CleanBefore(slots, a)
    requires forall i | 0 <= i < |entries| :: !IsFreeSlot(entries[i])
    ensures EndsOnce(Overwrite(slots, a, entries))
  {
    var slots' := Overwrite(slots, a, entries);
    forall p: nat, q: nat | p < q < |slots'| && IsEnd(slots'[p]) ensures IsEnd(slots'[q]) {
    }
  }

  /** Rewriting an entry's cluster and size keeps the directory and touches one name. */
  lemma UpdateValid(slots: seq<Slot>, view: View, k: Str, entry: Slot)
    requires ValidDirectory(slots, view) && k in view
    requires RawName(entry) == RawName(view[k].entry) && Attributes(entry) == Attributes(view[k].entry)
    ensures view[k].Last() < |slots|
    ensures ValidDirectory(slots[view[k].Last() := entry], view[k := view[k].(entry := entry)])
  {
    hide Named, Fold, EndsOnce, AllDistinct, AllCovered, GroupAt, CleanBefore, RawName;
    GroupSlotsUsed(slots, view, k);
    assert Within(view[k], view[k].Last());
    var slots' := slots[view[k].Last() := entry];
    var view' := view[k := view[k].(entry := entry)];
    forall l | l in view' ensures Entered(slots', view', l) {
      UpdateEntered(slots, view, k, entry, l);
    }
    UpdateRest(slots, view, k, entry);
  }

  lemma UpdateEntered(slots: seq<Slot>, view: View, k: Str, entry: Slot, l: Str)
    requires ValidDirectory(slots, view) && k in view && l in view && view[k].Last() < |slots|
    requires RawName(entry) == RawName(view[k].entry) && Attributes(entry) == Attributes(view[k].entry)
    ensures Entered(slots[view[k].Last() := entry], view[k := view[k].(entry := entry)], l)
  {
    hide Fold, EndsOnce, AllCovered, Named, RawName;
    var g := view[k];
    var slots' := slots[g.Last() := entry];
    assert Entered(slots, view, l);
    if l != k {
      assert Distinct(view[l], view[k]);
      GroupSlotsUsed(slots, view, k);
      GroupSlotsUsed(slots, view, l);
      UpdatedGroup(slots, g, entry);
      assert Kept(slots, slots', view[l]);
      EnteredFrame(slots, slots', view, view[k := g.(entry := entry)], l);
    } else {
      UpdatedGroup(slots, g, entry);
    }
  }

  lemma UpdatedGroup(slots: seq<Slot>, g: Group, entry: Slot)
    requires GroupAt(slots, g)
    requires RawName(entry) == RawName(g.entry) && Attributes(entry) == Attributes(g.entry)
    ensures GroupAt(slots[g.Last() := entry], g.(entry := entry))
    ensures entry[0] == g.entry[0]
  {
    hide FormatShort, ArePieces, ValidName, Checksum;
    assert entry[0] == RawName(entry)[0] && g.entry[0] == RawName(g.entry)[0];
    assert slots[g.Last() := entry][g.start..g.Last()] == slots[g.start..g.Last()];
  }

  lemma UpdateRest(slots: seq<Slot>, view: View, k: Str, entry: Slot)
    requires ValidDirectory(slots, view) && k in view && view[k].Last() < |slots|
    requires RawName(entry) == RawName(view[k].entry) && !IsFreeSlot(slots[view[k].Last()])
    ensures AllDistinct(view[k := view[k].(entry := entry)])
    ensures AllCovered(slots[view[k].Last() := entry], view[k := view[k].(entry := entry)])
    ensures EndsOnce(slots[view[k].Last() := entry])
  {
    hide AllEntered;
    var g := view[k];
    var slots' := slots[g.Last() := entry];
    var view' := view[k := g.(entry := entry)];
    forall l, m | l in view' && m in view' && l != m ensures Distinct(view'[l], view'[m]) {
      assert Distinct(view[l], view[m]);
    }
    forall p: nat | p < |slots'| && !IsFreeSlot(slots'[p]) ensures Covered(view', p) {
      assert Covered(view, p);
      var l :| l in view && Within(view[l], p);
      assert l in view' && Within(view'[l], p);
    }
    GroupSlotsUsed(slots, view, k);
    assert g.entry == slots[g.Last()];
    assert entry[0] == RawName(entry)[0] && g.entry[0] == RawName(g.entry)[0];
    forall p: nat, q: nat | p < q < |slots'| && IsEnd(slots'[p]) ensures IsEnd(slots'[q]) {
      assert IsEnd(slots[p]);
      assert IsEnd(slots[q]);
    }
  }

  /** A zeroed cluster at the end changes no name. */
  lemma ExtendValid(slots: seq<Slot>, view: View, more: seq<Slot>)
    requires ValidDirectory(slots, view)
    requires forall i | 0 <= i < |more| :: IsEnd(more[i])
    ensures ValidDirectory(slots + more, view)
  {
    ExtendEntered(slots, view, more);
    hide AllEntered, AllDistinct;
    forall p: nat, q: nat | p < q < |slots + more| && IsEnd((slots + more)[p]) ensures IsEnd((slots + more)[q]) {
      assert q < |slots| ==> IsEnd(slots[p]) && IsEnd(slots[q]);
    }
    forall p: nat | p < |slots + more| && !IsFreeSlot((slots + more)[p]) ensures Covered(view, p) {
      assert p < |slots|;
    }
  }

  lemma ExtendEntered(slots: seq<Slot>, view: View, more: seq<Slot>)
    requires ValidDirectory(slots, view)
    ensures AllEntered(slots + more, view)
  {
    hide Named, Fold, AllDistinct, EndsOnce, AllCovered;
    forall k | k in view ensures Entered(slots + more, view, k) {
      assert Entered(slots, view, k);
      GroupSlotsUsed(slots, view, k);
      assert Kept(slots, slots + more, view[k]);
      EnteredFrame(slots, slots + more, view, view, k);
    }
  }

  /** Moving a name within one directory: writing the new slots and deleting the old ones gives
      the same slots in either order. */
  lemma InsertDeleteCommute(slots: seq<Slot>, a: nat, entries: seq<Slot>, b: nat, n: nat)
    requires a + |entries| <= |slots| && b + n <= |slots|
    requires a + |entries| <= b || b + n <= a
    ensures MarkDeleted(Overwrite(slots, a, entries), b, n) == Overwrite(MarkDeleted(slots, b, n), a, entries)
  {
  }

  /** Overwriting a span in place and deleting its rest is deletion followed by insertion. */
  lemma ShrinkInPlace(slots: seq<Slot>, a: nat, entries: seq<Slot>, n: nat)
    requires |entries| <= n && a + n <= |slots|
    ensures MarkDeleted(Overwrite(slots, a, entries), a + |entries|, n - |entries|)
         == Overwrite(MarkDeleted(slots, a, n), a, entries)
  {
  }
}
