/** Renaming and moving: fat32_rename. */
module FatRename {
  import opened Bytes
  import opened FatSlots
  import opened FatNames
  import opened FatAliases
  import opened FatTables
  import opened FatBlocks
  import opened FatDirectory
  import opened FatStore
  import opened FatImage
  import opened FatSteps
  import opened FatLinks
  import opened FatMoves
  import opened FatRelocate
  import opened FatPrune
  import opened FatLookup
  import opened FatVolume
  import opened FatNaming
  import opened FatWrites
  import FatRemove

  // -------------------------------------------------------- the string test

  /** `path_is_descendant_of`: `path` is `parent` or continues it after a slash. */
  predicate DescendantOf(path: Str, parent: Str) {
    && parent != [] && parent <= path
    && (parent[|parent| - 1] == SLASH || |path| == |parent| || path[|parent|] == SLASH)
  }

  method PathIsDescendantOf(path: Str, parent: Str) returns (below: bool)
    requires parent != []
    ensures below == DescendantOf(path, parent)
  {
    var i := 0;
    while i < |parent| && i < |path| && path[i] == parent[i]
      invariant i <= |parent| && i <= |path| && path[..i] == parent[..i]
    {
      i := i + 1;
    }
    if i < |parent| {
      assert i == |path| || path[i] != parent[i];
      return false;
    }
    assert parent[..i] == parent;
    if parent[i - 1] == SLASH {
      return true;
    }
    below := i == |path| || path[i] == SLASH;
  }

  // ---------------------------------------------------- the names on the disk

  /** Both directories' slots show the name moved; ".." of a moved directory does not yet. */
  ghost predicate NamesMoved(img: Image, d: nat, k: Key, d2: nat, k2: Key, g: Group, disk': Disk) {
    && d in img.views && d2 in img.views && d in img.chains && d2 in img.chains
    && DiskOff(img.disk, disk', img.chains[d] + img.chains[d2]) && ValidDisk(disk', img.size)
    && forall x | x in img.views && x in img.chains ::
         ValidDirectory(DirSlots(disk', img.chains[x]), MovedView(img, d, k, d2, k2, g, x))
  }

  /** Entries built for a new name next to every name but `k` fit once `k` is gone. */
  lemma EntriesFitBeside(view: View, k: Key, name: Str, entries: seq<Slot>, attributes: Byte, first: nat, size: nat)
    requires AllDistinct(view) && k in view
    requires EntriesFor(entries, name, attributes, first, size, Others(view, Some(RawName(view[k].entry))))
    ensures EntriesFor(entries, name, attributes, first, size, UsedNames(view - {k}))
  {
    hide EntriesFor, RawName;
    var rest := view - {k};
    forall raw ensures raw in UsedNames(rest) <==> raw in UsedNames(view) - {RawName(view[k].entry)} {
      forall l | l in view && l != k ensures l in rest && rest[l] == view[l]
        && RawName(view[l].entry) != RawName(view[k].entry) {
        assert Distinct(view[l], view[k]);
      }
    }
    assert UsedNames(rest) == UsedNames(view) - {RawName(view[k].entry)};
  }

  /** Free room stays free room when slots are marked deleted. */
  lemma RoomUnderMarks(slots: seq<Slot>, a: nat, n: nat, b: nat, m: nat)
    requires Room(slots, a, n) && b + m <= |slots|
    ensures Room(MarkDeleted(slots, b, m), a, n)
  {
  }

  lemma RoomKept(slots: seq<Slot>, view: View, k: Key, a: nat, n: nat)
    requires ValidDirectory(slots, view) && k in view && Room(slots, a, n) && n > 0
    ensures view[k].start + view[k].lfns + 1 <= |slots|
    ensures Room(MarkDeleted(slots, view[k].start, view[k].lfns + 1), a, n)
    ensures a + n <= view[k].start || view[k].start + view[k].lfns + 1 <= a
  {
    hide ValidDirectory, Room, MarkDeleted;
    OutsideRoom(slots, view, k, a, n);
    LastSlot(slots, view, k);
    RoomUnderMarks(slots, a, n, view[k].start, view[k].lfns + 1);
  }

  lemma MarkedIsRoom(slots: seq<Slot>, a: nat, m: nat, n: nat)
    requires a + m <= |slots| && n <= m && CleanBefore(slots, a)
    ensures Room(MarkDeleted(slots, a, m), a, n)
  {
  }

  lemma StartClean(slots: seq<Slot>, view: View, k: Key)
    requires ValidDirectory(slots, view) && k in view
    ensures view[k].start <= |slots| && CleanBefore(slots, view[k].start)
  {
    hide AllDistinct, AllCovered, EndsOnce, FatDirectory.Named, CleanBefore, Fold;
    assert Entered(slots, view, k);
  }

  /** The slots a name occupied are room for a name that needs no more. */
  lemma RoomInPlace(slots: seq<Slot>, view: View, k: Key, n: nat)
    requires ValidDirectory(slots, view) && k in view && n <= view[k].lfns + 1
    ensures view[k].start + view[k].lfns + 1 <= |slots|
    ensures Room(MarkDeleted(slots, view[k].start, view[k].lfns + 1), view[k].start, n)
  {
    hide ValidDirectory, Room, MarkDeleted, CleanBefore;
    StartClean(slots, view, k);
    LastSlot(slots, view, k);
    MarkedIsRoom(slots, view[k].start, view[k].lfns + 1, n);
  }

  lemma MovedWithin(slots: seq<Slot>, view: View, k: Key, name: Str, index: nat, entries: seq<Slot>,
                    attributes: Byte, first: nat, size: nat)
    requires ValidDirectory(slots, view) && k in view && ValidName(name) && Fold(name) !in view
             && PlainAttributes(attributes)
    requires EntriesFor(entries, name, attributes, first, size, UsedNames(view - {k}))
    requires view[k].start + view[k].lfns + 1 <= |slots| && index + |entries| <= |slots|
    requires Room(MarkDeleted(slots, view[k].start, view[k].lfns + 1), index, |entries|)
    ensures ValidDirectory(Overwrite(MarkDeleted(slots, view[k].start, view[k].lfns + 1), index, entries),
                           (view - {k})[Fold(name) := GroupFor(name, index, entries)])
  {
    hide *;
    DeleteValid(slots, view, k);
    NameJoins(MarkDeleted(slots, view[k].start, view[k].lfns + 1), view - {k}, name, index, entries, attributes, first,
      size);
  }

  lemma NameJoins(slots: seq<Slot>, view: View, name: Str, index: nat, entries: seq<Slot>, attributes: Byte, first: nat,
                  size: nat)
    requires ValidDirectory(slots, view) && ValidName(name) && Fold(name) !in view && PlainAttributes(attributes)
    requires EntriesFor(entries, name, attributes, first, size, UsedNames(view))
    requires index + |entries| <= |slots| && Room(slots, index, |entries|)
    ensures entries != []
            && ValidDirectory(Overwrite(slots, index, entries), view[Fold(name) := GroupFor(name, index, entries)])
  {
    hide *;
    EntriesFields(entries, name, attributes, first, size, UsedNames(view));
    GroupFits(name, index, entries, attributes, first, size, view);
    var g := GroupFor(name, index, entries);
    assert g.start == index && g.lfns == |entries| - 1;
    InsertValid(slots, view, name, g, entries);
  }

  lemma NamesMovedFrom(img: Image, d: nat, k: Key, d2: nat, k2: Key, g: Group, disk': Disk)
    requires ValidImage(img) && d in img.views && d2 in img.views && d in img.chains && d2 in img.chains
    requires DiskOff(img.disk, disk', img.chains[d] + img.chains[d2]) && ValidDisk(disk', img.size)
    requires ValidDirectory(DirSlots(disk', img.chains[d]), MovedView(img, d, k, d2, k2, g, d))
    requires ValidDirectory(DirSlots(disk', img.chains[d2]), MovedView(img, d, k, d2, k2, g, d2))
    ensures NamesMoved(img, d, k, d2, k2, g, disk')
  {
    hide Linked, ValidDirectory, DirSlots, ValidDisk;
    forall x | x in img.views && x in img.chains
      ensures ValidDirectory(DirSlots(disk', img.chains[x]), MovedView(img, d, k, d2, k2, g, x))
    {
      if x != d && x != d2 {
        assert SlotsOk(img, x);
        OthersUntouched(img, d, d2, disk', x);
      }
    }
  }

  lemma OthersUntouched(img: Image, d: nat, d2: nat, disk': Disk, x: nat)
    requires Storage(img) && d in img.chains && d2 in img.chains && x in img.chains && x != d && x != d2
    requires DiskOff(img.disk, disk', img.chains[d] + img.chains[d2])
    ensures DirSlots(disk', img.chains[x]) == SlotsOf(img, x)
  {
    hide ValidDisk, ChainAt, DirSlots;
    assert Apart(img.chains[x], img.chains[d]) && Apart(img.chains[x], img.chains[d2]);
    DirSlotsFrame(img.disk, disk', img.chains[x]);
  }

  /** Entries written over the deleted slots of one directory move the name within it. */
  lemma MovedInside(img: Image, d: nat, k: Key, name: Str, index: nat, entries: seq<Slot>, attributes: Byte, first: nat,
                    size: nat, disk': Disk)
    requires ValidImage(img) && Listed(img, d, k) && d in img.chains
    requires ValidName(name) && Fold(name) !in img.views[d] && PlainAttributes(attributes)
    requires EntriesFor(entries, name, attributes, first, size, UsedNames(img.views[d] - {k}))
    requires DiskOff(img.disk, disk', img.chains[d]) && ValidDisk(disk', img.size)
    requires var g, slots := img.views[d][k], SlotsOf(img, d);
             && g.start + g.lfns + 1 <= |slots| && index + |entries| <= |slots|
             && Room(MarkDeleted(slots, g.start, g.lfns + 1), index, |entries|)
             && DirSlots(disk', img.chains[d]) == Overwrite(MarkDeleted(slots, g.start, g.lfns + 1), index, entries)
    ensures entries != [] && NamesMoved(img, d, k, d, Fold(name), GroupFor(name, index, entries), disk')
  {
    hide *;
    EntryPlace(img, d, k);
    MovedWithin(SlotsOf(img, d), img.views[d], k, name, index, entries, attributes, first, size);
    EntriesFields(entries, name, attributes, first, size, UsedNames(img.views[d] - {k}));
    ViewInside(img, d, k, Fold(name), GroupFor(name, index, entries));
    OffMore(img.disk, disk', img.chains[d], img.chains[d]);
    NamesMovedFrom(img, d, k, d, Fold(name), GroupFor(name, index, entries), disk');
  }

  lemma ViewInside(img: Image, d: nat, k: Key, k2: Key, g: Group)
    requires d in img.views
    ensures MovedView(img, d, k, d, k2, g, d) == (img.views[d] - {k})[k2 := g]
  {
  }

  lemma OffMore(disk: Disk, disk': Disk, a: seq<nat>, b: seq<nat>)
    requires DiskOff(disk, disk', a) || DiskOff(disk, disk', b)
    ensures DiskOff(disk, disk', a + b)
  {
  }

  /** The same between two directories. */
  lemma MovedAcross(img: Image, d: nat, k: Key, d2: nat, name: Str, index: nat, entries: seq<Slot>, attributes: Byte,
                    first: nat, size: nat, disk': Disk)
    requires ValidImage(img) && Listed(img, d, k) && d in img.chains && d2 in img.views && d2 in img.chains && d != d2
    requires ValidName(name) && Fold(name) !in img.views[d2] && PlainAttributes(attributes)
    requires EntriesFor(entries, name, attributes, first, size, UsedNames(img.views[d2]))
    requires DiskOff(img.disk, disk', img.chains[d] + img.chains[d2]) && ValidDisk(disk', img.size)
    requires Room(SlotsOf(img, d2), index, |entries|) && index + |entries| <= |SlotsOf(img, d2)|
    requires DirSlots(disk', img.chains[d2]) == Overwrite(SlotsOf(img, d2), index, entries)
    requires var g, slots := img.views[d][k], SlotsOf(img, d);
             && g.start + g.lfns + 1 <= |slots|
               && DirSlots(disk', img.chains[d]) == MarkDeleted(slots, g.start, g.lfns + 1)
    ensures entries != [] && NamesMoved(img, d, k, d2, Fold(name), GroupFor(name, index, entries), disk')
  {
    hide *;
    EntryPlace(img, d, k);
    ViewPlace(img, d2);
    DeleteValid(SlotsOf(img, d), img.views[d], k);
    NameJoins(SlotsOf(img, d2), img.views[d2], name, index, entries, attributes, first, size);
    ViewsAcross(img, d, k, d2, Fold(name), GroupFor(name, index, entries));
    NamesMovedFrom(img, d, k, d2, Fold(name), GroupFor(name, index, entries), disk');
  }

  lemma ViewPlace(img: Image, d: nat)
    requires ValidImage(img) && d in img.views
    ensures d in img.chains && ValidDirectory(SlotsOf(img, d), img.views[d]) && IsChain(img.fat, img.chains[d])
    ensures img.chains[d][0] == d
  {
    hide Linked, ValidDirectory, DirSlots;
    assert SlotsOk(img, d) && ChainAt(img.fat, img.chains, d);
  }

  lemma ViewsAcross(img: Image, d: nat, k: Key, d2: nat, k2: Key, g: Group)
    requires d in img.views && d2 in img.views && d != d2
    ensures MovedView(img, d, k, d2, k2, g, d) == img.views[d] - {k}
    ensures MovedView(img, d, k, d2, k2, g, d2) == img.views[d2][k2 := g]
  {
  }

  // --------------------------------------------------- ".." of a moved directory

  /** The whole move as it stands on the disk. */
  ghost predicate RelocateWritten(img: Image, d: nat, k: Key, d2: nat, k2: Key, g: Group, up: Slot, disk': Disk) {
    && d in img.views && d2 in img.views && d in img.chains && d2 in img.chains
    && DiskOff(img.disk, disk', MoveTouches(img, d, d2, g)) && ValidDisk(disk', img.size)
    && forall x | x in img.views && x in img.chains ::
         ValidDirectory(DirSlots(disk', img.chains[x]), RelocatedView(img, d, k, d2, k2, g, up, x))
  }

  lemma FileWritten(img: Image, d: nat, k: Key, d2: nat, k2: Key, g: Group, up: Slot, disk': Disk)
    requires NamesMoved(img, d, k, d2, k2, g, disk') && !IsDirectory(g.entry)
    ensures RelocateWritten(img, d, k, d2, k2, g, up, disk')
  {
    hide ValidDirectory, DirSlots, ValidDisk, FirstCluster, MovedView, IsDirectory;
    assert img.chains[d] + img.chains[d2] + [] == img.chains[d] + img.chains[d2];
  }

  /** A sub-directory's ".." sits at slot 1 wherever the directory goes. */
  lemma UpEntry(img: Image, d: nat, k: Key, d2: nat, k2: Key, g: Group, f: nat)
    requires Linked(img) && d in img.views && d2 in img.views && f in img.views && f != img.root && !IsDot(k)
             && !IsDot(k2)
    ensures [DOT, DOT] in MovedView(img, d, k, d2, k2, g, f)
            && MovedView(img, d, k, d2, k2, g, f)[[DOT, DOT]].Last() == 1
    ensures MovedView(img, d, k, d2, k2, g, f)[[DOT, DOT]] == img.views[f][[DOT, DOT]]
    ensures Listed(img, f, [DOT, DOT])
  {
    hide AllOwners, AllEntries, FirstCluster, IsDot;
    DotKeys();
    assert Placed(img, f);
  }

  lemma DirectoryWritten(img: Image, d: nat, k: Key, d2: nat, k2: Key, g: Group, up: Slot, disk': Disk, disk'': Disk)
    requires ValidImage(img) && NamesMoved(img, d, k, d2, k2, g, disk') && !IsDot(k) && !IsDot(k2)
    requires var f := FirstCluster(g.entry);
             && f in img.views && f in img.chains && f != img.root
             && DiskOff(disk', disk'', img.chains[f]) && ValidDisk(disk'', img.size)
             && 1 < |DirSlots(disk', img.chains[f])| && RawName(up) == RawName(DirSlots(disk', img.chains[f])[1])
             && Attributes(up) == Attributes(DirSlots(disk', img.chains[f])[1])
             && DirSlots(disk'', img.chains[f]) == DirSlots(disk', img.chains[f])[1 := up]
    requires IsDirectory(g.entry)
    ensures RelocateWritten(img, d, k, d2, k2, g, up, disk'')
  {
    ValidParts(img);
    var f := FirstCluster(g.entry);
    UpEntry(img, d, k, d2, k2, g, f);
    TouchesAll(img, d, d2, g, disk', disk'');
    hide Linked, Storage, AllSlots, ValidDirectory, DirSlots, ValidDisk, FirstCluster, IsDirectory, MovedView,
         RelocatedView, MoveTouches, RawName, IsDot;
    forall x | x in img.views && x in img.chains
      ensures ValidDirectory(DirSlots(disk'', img.chains[x]), RelocatedView(img, d, k, d2, k2, g, up, x))
    {
      assert ValidDirectory(DirSlots(disk', img.chains[x]), MovedView(img, d, k, d2, k2, g, x));
      if x == f {
        UpRewritten(img, d, k, d2, k2, g, up, DirSlots(disk', img.chains[x]));
      } else {
        ElsewhereSame(img, f, x, disk', disk'');
        NotTheMoved(img, d, k, d2, k2, g, up, x);
      }
    }
  }

  lemma TouchesAll(img: Image, d: nat, d2: nat, g: Group, disk': Disk, disk'': Disk)
    requires d in img.chains && d2 in img.chains && IsDirectory(g.entry) && FirstCluster(g.entry) in img.chains
    requires DiskOff(img.disk, disk', img.chains[d] + img.chains[d2])
    requires DiskOff(disk', disk'', img.chains[FirstCluster(g.entry)])
    ensures DiskOff(img.disk, disk'', MoveTouches(img, d, d2, g))
  {
    hide FirstCluster, IsDirectory;
  }

  lemma UpRewritten(img: Image, d: nat, k: Key, d2: nat, k2: Key, g: Group, up: Slot, slots: seq<Slot>)
    requires d in img.views && d2 in img.views && FirstCluster(g.entry) in img.views && IsDirectory(g.entry)
    requires var view := MovedView(img, d, k, d2, k2, g, FirstCluster(g.entry));
             && ValidDirectory(slots, view) && [DOT, DOT] in view && view[[DOT, DOT]].Last() == 1
    requires 1 < |slots| && RawName(up) == RawName(slots[1]) && Attributes(up) == Attributes(slots[1])
    ensures ValidDirectory(slots[1 := up], RelocatedView(img, d, k, d2, k2, g, up, FirstCluster(g.entry)))
  {
    hide ValidDirectory, MovedView, FirstCluster, IsDirectory, RawName;
    var view := MovedView(img, d, k, d2, k2, g, FirstCluster(g.entry));
    LastSlot(slots, view, [DOT, DOT]);
    UpdateValid(slots, view, [DOT, DOT], up);
  }

  lemma NotTheMoved(img: Image, d: nat, k: Key, d2: nat, k2: Key, g: Group, up: Slot, x: nat)
    requires d in img.views && d2 in img.views && x in img.views && x != FirstCluster(g.entry)
    ensures RelocatedView(img, d, k, d2, k2, g, up, x) == MovedView(img, d, k, d2, k2, g, x)
  {
    hide FirstCluster, IsDirectory, MovedView;
  }

  lemma ElsewhereSame(img: Image, f: nat, x: nat, disk': Disk, disk'': Disk)
    requires Storage(img) && f in img.chains && x in img.chains && x != f && DiskOff(disk', disk'', img.chains[f])
    ensures DirSlots(disk'', img.chains[x]) == DirSlots(disk', img.chains[x])
  {
    hide ValidDisk, ChainAt, DirSlots;
    assert Apart(img.chains[x], img.chains[f]);
    DirSlotsFrame(disk', disk'', img.chains[x]);
  }

  // -------------------------------------------------------- moving the slots

  /** New name entries of an old entry, ready to replace it. */
  ghost predicate Renaming(img: Image, d: nat, k: Key, d2: nat, name: Str, entries: seq<Slot>, ref: EntryRef) {
    && Listed(img, d, k) && !IsDot(k) && d in img.chains && d2 in img.views && d2 in img.chains
    && ValidName(name) && Fold(name) !in img.views[d2] && ref == RefOf(img.views[d][k])
    && PlainAttributes(Attributes(ref.entry))
    && EntriesFor(entries, name, Attributes(ref.entry), FirstCluster(ref.entry), Size(ref.entry),
                  if d == d2 then UsedNames(img.views[d] - {k}) else UsedNames(img.views[d2]))
  }

  lemma RenamingFacts(img: Image, d: nat, k: Key, d2: nat, name: Str, entries: seq<Slot>, ref: EntryRef)
    requires ValidImage(img) && Renaming(img, d, k, d2, name, entries, ref)
    ensures 0 < |entries| <= MAX_NAME_ENTRIES && d in img.views && k in img.views[d] && d2 in img.views
    ensures d in img.chains && d2 in img.chains && IsChain(img.fat, img.chains[d]) && IsChain(img.fat, img.chains[d2])
    ensures img.chains[d][0] == d && img.chains[d2][0] == d2
    ensures var g := img.views[d][k];
            && ref.index == g.start + g.lfns && ref.lfns == g.lfns && g.start + g.lfns + 1 <= |SlotsOf(img, d)|
            && ref.entry == g.entry == EntryOf(img, d, k)
    ensures ValidDirectory(SlotsOf(img, d), img.views[d]) && ValidDirectory(SlotsOf(img, d2), img.views[d2])
    ensures Listed(img, d, k) && !IsDot(k) && ValidName(name) && Fold(name) !in img.views[d2]
            && PlainAttributes(Attributes(ref.entry))
    ensures EntriesFor(entries, name, Attributes(ref.entry), FirstCluster(ref.entry), Size(ref.entry),
                       if d == d2 then UsedNames(img.views[d] - {k}) else UsedNames(img.views[d2]))
  {
    EntryPlace(img, d, k);
    ViewPlace(img, d2);
    hide ValidImage, ValidDirectory, DirSlots, UsedNames, StoredAs, NameSlots, PiecesFor, FirstCluster, Size, IsChain,
         ValidName;
  }

  /** The in-place branch: the new entries overwrite the old ones, the rest is marked deleted. */
  method MoveInPlace(vol: Volume, dir: U32, ghost k: Key, ref: EntryRef, name: Str, entries: seq<Slot>)
    requires vol.Valid() && Renaming(vol.Now(), dir, k, dir, name, entries, ref) && |entries| <= ref.lfns + 1
    modifies vol.store.disk
    ensures vol.store.Valid() && ref.index >= ref.lfns && entries != []
    ensures NamesMoved(old(vol.Now()), dir, k, dir, Fold(name), GroupFor(name, ref.index - ref.lfns, entries),
            vol.store.disk[..])
  {
    hide *;
    ghost var img := vol.Now();
    ghost var d: nat := dir;
    vol.Parts();
    VolumeIs(vol, img);
    RenamingFacts(img, d, k, d, name, entries, ref);
    vol.DirFacts(d);
    var start, count := ref.index - ref.lfns, ref.lfns + 1;
    var r := vol.store.WriteEntrySpan(dir, start, entries, img.chains[d]);
    DiskIsValid(vol.store, img.chains[d]);
    if |entries| < count {
      r := vol.store.MarkRangeDeleted(dir, start + |entries|, count - |entries|, img.chains[d]);
    } else {
      NothingMarked(vol.store.All(img.chains[d]), start + |entries|);
    }
    ShrinkInPlace(SlotsOf(img, d), start, entries, count);
    DiskIsValid(vol.store, img.chains[d]);
    OffClusters(img.disk, vol.store.disk[..], img.chains[d]);
    PlacedInside(img, d, k, name, start, entries, ref, vol.store.disk[..]);
  }

  lemma NothingMarked(slots: seq<Slot>, a: nat)
    requires a <= |slots|
    ensures MarkDeleted(slots, a, 0) == slots
  {
  }

  lemma PlacedInside(img: Image, d: nat, k: Key, name: Str, start: nat, entries: seq<Slot>, ref: EntryRef, disk': Disk)
    requires ValidImage(img) && Renaming(img, d, k, d, name, entries, ref) && |entries| <= ref.lfns + 1
    requires Listed(img, d, k) && d in img.chains && start == img.views[d][k].start
    requires DiskOff(img.disk, disk', img.chains[d]) && ValidDisk(disk', img.size)
    requires var g, slots := img.views[d][k], SlotsOf(img, d);
             && g.start + g.lfns + 1 <= |slots| && start + |entries| <= |slots|
             && DirSlots(disk', img.chains[d]) == Overwrite(MarkDeleted(slots, g.start, g.lfns + 1), start, entries)
    ensures entries != [] && NamesMoved(img, d, k, d, Fold(name), GroupFor(name, start, entries), disk')
  {
    hide *;
    RenamingFacts(img, d, k, d, name, entries, ref);
    RoomInPlace(SlotsOf(img, d), img.views[d], k, |entries|);
    MovedInside(img, d, k, name, start, entries, Attributes(ref.entry), FirstCluster(ref.entry), Size(ref.entry),
      disk');
  }

  lemma AfterFirst(img: Image, d: nat, d2: nat, index: nat, entries: seq<Slot>, mid: Disk)
    requires Storage(img) && d in img.chains && d2 in img.chains && index + |entries| <= |SlotsOf(img, d2)|
    requires DiskOff(img.disk, mid, img.chains[d2])
    requires DirSlots(mid, img.chains[d2]) == Overwrite(SlotsOf(img, d2), index, entries)
    ensures DirSlots(mid, img.chains[d]) == if d == d2 then Overwrite(SlotsOf(img, d), index, entries)
            else SlotsOf(img, d)
  {
    hide ValidDisk, ChainAt, DirSlots;
    if d != d2 {
      assert Apart(img.chains[d], img.chains[d2]);
      DirSlotsFrame(img.disk, mid, img.chains[d]);
    }
  }

  lemma PlacedElsewhere(img: Image, d: nat, k: Key, d2: nat, name: Str, index: nat, entries: seq<Slot>, ref: EntryRef,
                        mid: Disk, disk': Disk)
    requires ValidImage(img) && Renaming(img, d, k, d2, name, entries, ref)
    requires Listed(img, d, k) && d in img.chains && d2 in img.chains
    requires Room(SlotsOf(img, d2), index, |entries|) && index + |entries| <= |SlotsOf(img, d2)|
    requires DiskOff(img.disk, mid, img.chains[d2]) && DiskOff(mid, disk', img.chains[d]) && ValidDisk(disk', img.size)
    requires DirSlots(mid, img.chains[d2]) == Overwrite(SlotsOf(img, d2), index, entries)
    requires var g := img.views[d][k];
             && g.start + g.lfns + 1 <= |DirSlots(mid, img.chains[d])| && g.start + g.lfns + 1 <= |SlotsOf(img, d)|
             && DirSlots(disk', img.chains[d]) == MarkDeleted(DirSlots(mid, img.chains[d]), g.start, g.lfns + 1)
    ensures entries != [] && NamesMoved(img, d, k, d2, Fold(name), GroupFor(name, index, entries), disk')
  {
    hide *;
    ValidParts(img);
    RenamingFacts(img, d, k, d2, name, entries, ref);
    OffBoth(img.disk, mid, disk', img.chains[d], img.chains[d2]);
    AfterFirst(img, d, d2, index, entries, mid);
    var g := img.views[d][k];
    if d == d2 {
      RoomKept(SlotsOf(img, d), img.views[d], k, index, |entries|);
      InsertDeleteCommute(SlotsOf(img, d), index, entries, g.start, g.lfns + 1);
      MovedInside(img, d, k, name, index, entries, Attributes(ref.entry), FirstCluster(ref.entry), Size(ref.entry),
        disk');
    } else {
      ElsewhereSame(img, d, d2, mid, disk');
      MovedAcross(img, d, k, d2, name, index, entries, Attributes(ref.entry), FirstCluster(ref.entry), Size(ref.entry),
        disk');
    }
  }

  lemma OffBoth(disk: Disk, mid: Disk, disk': Disk, a: seq<nat>, b: seq<nat>)
    requires DiskOff(disk, mid, b) && DiskOff(mid, disk', a)
    ensures DiskOff(disk, disk', a + b) && (a == b ==> DiskOff(disk, disk', a))
  {
  }

  /** The other branch: the new entries go into free room, then the old ones are marked deleted. */
  method MoveElsewhere(vol: Volume, dir: U32, ghost k: Key, ref: EntryRef, dir2: U32, name: Str, entries: seq<Slot>)
    returns (r: Result, ghost grown: Image, ghost index: nat)
    requires vol.Valid() && Renaming(vol.Now(), dir, k, dir2, name, entries, ref)
    modifies vol, vol.store.disk, vol.store.table.entries
    ensures vol.store.Valid() && entries != []
    ensures r == if old(DirectoryFull(vol.Now(), dir2, |entries|)) then NoSpace else Ok
    ensures r == NoSpace ==> vol.Valid() && vol.Now() == old(vol.Now())
    ensures r == Ok ==>
              ValidImage(grown) && Tree(grown) == old(Tree(vol.Now()))
              && DirGrown(old(vol.Now()), grown, dir2)
    ensures r == Ok ==> vol.Now() == grown.(disk := vol.store.disk[..])
    ensures r == Ok ==> NamesMoved(grown, dir, k, dir2, Fold(name), GroupFor(name, index, entries), vol.store.disk[..])
    ensures r == Ok ==>
              dir2 as nat in old(vol.chains)
              && OnlyGrew(old(vol.Now()), grown, dir2, old(Growth(vol.Now(), dir2, |entries|)))
  {
    hide *;
    ghost var img := vol.Now();
    ghost var d: nat := dir;
    ghost var d2: nat := dir2;
    vol.Parts();
    VolumeIs(vol, img);
    RenamingFacts(img, d, k, d2, name, entries, ref);
    var at;
    r, at := FindFreeEntry(vol, dir2, |entries|);
    index := at;
    grown := vol.Now();
    vol.Parts();
    VolumeIs(vol, grown);
    if r != Ok {
      return;
    }
    RenamingGrown(img, grown, d, k, d2, name, entries, ref);
    RenamingFacts(grown, d, k, d2, name, entries, ref);
    vol.DirFacts(d2);
    RoomInside(SlotsOf(grown, d2), at, |entries|);
    var w := vol.store.WriteEntrySpan(dir2, at, entries, grown.chains[d2]);
    ghost var mid := vol.store.disk[..];
    OffClusters(grown.disk, mid, grown.chains[d2]);
    DiskIsValid(vol.store, grown.chains[d2]);
    ValidParts(grown);
    AfterFirst(grown, d, d2, at, entries, mid);
    DiskIsValid(vol.store, grown.chains[d]);
    w := vol.store.MarkRangeDeleted(dir, ref.index - ref.lfns, ref.lfns + 1, grown.chains[d]);
    OffClusters(mid, vol.store.disk[..], grown.chains[d]);
    DiskIsValid(vol.store, grown.chains[d]);
    PlacedElsewhere(grown, d, k, d2, name, at, entries, ref, mid, vol.store.disk[..]);
    OnlyDisk(vol, grown);
  }

  lemma OnlyDisk(vol: Volume, img: Image)
    requires vol.store.size == img.size && vol.root as nat == img.root && vol.store.table.View() == img.fat
    requires vol.chains == img.chains && vol.views == img.views && vol.owner == img.owner && vol.paths == img.paths
    ensures vol.Now() == img.(disk := vol.store.disk[..])
  {
  }

  lemma RenamingGrown(img: Image, grown: Image, d: nat, k: Key, d2: nat, name: Str, entries: seq<Slot>, ref: EntryRef)
    requires Renaming(img, d, k, d2, name, entries, ref) && DirGrown(img, grown, d2)
    ensures Renaming(grown, d, k, d2, name, entries, ref) && Listed(grown, d, k)
  {
    hide EntriesFor, UsedNames, ValidName, FirstCluster, Size, Attributes, PlainAttributes, IsDot;
  }

  /** `update_directory_parent` */
  method UpdateDirectoryParent(store: Store, dir: U32, parent: U32, ghost cs: seq<nat>)
    requires store.Valid() && store.Holds(cs) && cs[0] == dir
    modifies store.disk
    ensures store.Valid() && 1 < |old(store.All(cs))|
    ensures store.All(cs) == old(store.All(cs))[1 := WithFirstCluster(old(store.All(cs))[1], parent)]
    ensures forall c | 0 <= c < store.disk.Length && c !in cs :: store.disk[c] == old(store.disk[c])
  {
    store.ChainOnDisk(cs);
    hide DirSlots, IsChain, PutSlot, Slots;
    SecondSlot(store.disk[..], store.size, cs);
    assert cs[0] in cs;
    ghost var before := store.disk[..];
    var entry := WithFirstCluster(Slots(store.disk[dir])[1], parent);
    SecondSlotPut(before, store.size, cs, entry);
    store.disk[dir] := PutSlot(store.disk[dir], 1, entry);
    assert store.disk[..] == before[cs[0] := PutSlot(before[cs[0]], 1, entry)];
  }

  lemma SecondSlot(disk: Disk, size: nat, cs: seq<nat>)
    requires ValidDisk(disk, size) && ClustersOn(disk, cs) && cs != [] && size >= 512
    ensures 1 < |DirSlots(disk, cs)| && 1 < |Slots(disk[cs[0]])| && |disk[cs[0]]| == size
    ensures DirSlots(disk, cs)[1] == Slots(disk[cs[0]])[1]
  {
    DirSlotAt(disk, size, cs, 0, 1);
  }

  lemma SecondSlotPut(disk: Disk, size: nat, cs: seq<nat>, s: Slot)
    requires ValidDisk(disk, size) && ClustersOn(disk, cs) && cs != [] && size >= 512 && NoDuplicates(cs)
    requires |disk[cs[0]]| == size && 1 < |DirSlots(disk, cs)|
    ensures DirSlots(disk[cs[0] := PutSlot(disk[cs[0]], 1, s)], cs) == DirSlots(disk, cs)[1 := s]
  {
    DirSlotPut(disk, size, cs, 0, 1, s);
  }

  // ------------------------------------------------------------ the operation

  /** The slots the new name takes; within one directory the old short name does not count. */
  ghost function RenameSlots(img: Image, d: nat, k: Key, d2: nat, name: Str): nat
    requires Listed(img, d, k) && d2 in img.views
  {
    PiecesFor(name, Others(img.views[d2], if d == d2 then Some(RawName(EntryOf(img, d, k))) else None)) + 1
  }

  /** No room for the new name: it does not fit over the old one, and its directory is full. */
  ghost predicate NoRoomToMove(img: Image, d: nat, k: Key, d2: nat, name: Str)
    requires Listed(img, d, k) && d2 in img.views
  {
    var needed := RenameSlots(img, d, k, d2, name);
    !(d == d2 && needed <= img.views[d][k].lfns + 1) && DirectoryFull(img, d2, needed)
  }

  /** By how much a rename that goes through lengthens the target directory. */
  ghost function RenameGrowth(img: Image, d: nat, k: Key, d2: nat, name: Str): nat
    requires Listed(img, d, k) && d2 in img.views && d2 in img.chains
  {
    var needed := RenameSlots(img, d, k, d2, name);
    if d == d2 && needed <= img.views[d][k].lfns + 1 then 0 else Growth(img, d2, needed)
  }

  /** The target directory is the moved one or lies below it. */
  ghost predicate IntoItself(img: Image, d: nat, k: Key, d2: nat) {
    && Listed(img, d, k) && IsDirectory(EntryOf(img, d, k))
    && d in img.paths && d2 in img.paths && img.paths[d] + [k] <= img.paths[d2]
  }

  /** What a successful move leaves: the volume `grown` (the old one, perhaps with a longer target
      directory) with the name, and ".." of a moved directory, rewritten on the disk. */
  ghost predicate MoveDone(img: Image, grown: Image, d: nat, k: Key, d2: nat, k2: Key, g: Group, up: Slot, fat': Table,
                           disk': Disk) {
    && ValidImage(grown) && Tree(grown) == Tree(img) && DirGrown(img, grown, d2) && fat' == grown.fat
    && Listed(img, d, k) && d2 in img.views && k2 !in img.views[d2] && !IsDot(k) && !IsDot(k2)
    && (var e := EntryOf(img, d, k);
        && FirstCluster(g.entry) == FirstCluster(e) && Size(g.entry) == Size(e) && Attributes(g.entry) == Attributes(e)
        && (IsDirectory(e) ==> FirstCluster(up) == if d2 == img.root then 0 else d2))
    && RelocateWritten(grown, d, k, d2, k2, g, up, disk')
  }

  /** Unless a directory moved into itself, the volume is valid again and one name has moved. */
  lemma MoveSettles(img: Image, grown: Image, d: nat, k: Key, d2: nat, k2: Key, g: Group, up: Slot, fat': Table,
                    disk': Disk)
    requires ValidImage(img) && MoveDone(img, grown, d, k, d2, k2, g, up, fat', disk') && !IntoItself(img, d, k, d2)
    ensures Relocatable(grown, d, k, d2, k2, g, up)
    ensures var img' := Relocated(grown, d, k, d2, k2, g, up).(disk := disk');
            && ValidImage(img') && img'.fat == fat' && img'.size == img.size && img'.root == img.root
            && d in Tree(img) && d2 in Tree(img) && k in Tree(img)[d]
            && Tree(img') == MovedTree(Tree(img), d, k, d2, k2)
  {
    MoveMovable(img, grown, d, k, d2, k2, g, up, fat', disk');
    hide ValidImage, Relocatable, RelocateWritten, Tree, Relocated, IntoItself, FirstCluster, Size, IsDirectory,
         Attributes, DirGrown, ValidDirectory, IsDot;
    MoveReady(grown, d, k, d2, k2, g, up, disk');
    RelocateStep(grown, d, k, d2, k2, g, up, disk');
    RelocatedSize(grown, d, k, d2, k2, g, up);
    GrownSame(img, grown, d2);
  }

  /** The tree after a move that succeeded: one name has moved, or, when a directory was moved into
      itself, everything below it is gone. */
  ghost function MoveOutcome(img: Image, d: nat, k: Key, d2: nat, k2: Key): FileSystem
    requires d in img.paths && img.paths.Keys == Tree(img).Keys
    requires d in Tree(img) && d2 in Tree(img) && k in Tree(img)[d]
  {
    if IntoItself(img, d, k, d2) then PrunedTree(Tree(img), img.paths, d, k) else MovedTree(Tree(img), d, k, d2, k2)
  }

  lemma OutcomeIs(img: Image, d: nat, k: Key, d2: nat, k2: Key)
    requires d in img.paths && img.paths.Keys == Tree(img).Keys
    requires d in Tree(img) && d2 in Tree(img) && k in Tree(img)[d]
    ensures MoveOutcome(img, d, k, d2, k2) ==
            if IntoItself(img, d, k, d2) then PrunedTree(Tree(img), img.paths, d, k)
              else MovedTree(Tree(img), d, k, d2, k2)
  {
    hide IntoItself, Tree;
  }

  lemma MovePlaces(img: Image, grown: Image, d: nat, k: Key, d2: nat, k2: Key, g: Group, up: Slot, fat': Table,
                   disk': Disk)
    requires ValidImage(img) && MoveDone(img, grown, d, k, d2, k2, g, up, fat', disk')
    ensures d in Tree(img) && d2 in Tree(img) && k in Tree(img)[d] && d in img.paths && img.paths.Keys == Tree(img).Keys
  {
    hide *;
    DoneParts(img, grown, d, k, d2, k2, g, up, fat', disk');
    ValidParts(img);
    TreeKeys(img);
    ListedView(img, d, k);
    FatRemove.ListedInTree(img, d, k);
    InTree(img, d2);
    PlacedPath(img, d);
  }

  lemma DoneParts(img: Image, grown: Image, d: nat, k: Key, d2: nat, k2: Key, g: Group, up: Slot, fat': Table,
                  disk': Disk)
    requires MoveDone(img, grown, d, k, d2, k2, g, up, fat', disk')
    ensures ValidImage(grown) && Tree(grown) == Tree(img) && DirGrown(img, grown, d2) && fat' == grown.fat
    ensures Listed(img, d, k) && d2 in img.views && k2 !in img.views[d2] && !IsDot(k) && !IsDot(k2)
    ensures FirstCluster(g.entry) == FirstCluster(EntryOf(img, d, k))
            && Attributes(g.entry) == Attributes(EntryOf(img, d, k))
    ensures RelocateWritten(grown, d, k, d2, k2, g, up, disk')
  {
    hide ValidImage, Tree, DirGrown, FirstCluster, Attributes, Size, IsDirectory, IsDot, RelocateWritten;
  }

  /** A directory moved into itself drops out with all that was below it; the volume stays valid. */
  lemma MoveLoses(img: Image, grown: Image, d: nat, k: Key, d2: nat, k2: Key, g: Group, up: Slot, fat': Table,
                  disk': Disk)
    requires ValidImage(img) && MoveDone(img, grown, d, k, d2, k2, g, up, fat', disk') && IntoItself(img, d, k, d2)
    ensures d in grown.paths && d in img.paths && img.paths.Keys == Tree(img).Keys
    ensures var img' := Pruned(grown, d, k).(disk := disk');
            && ValidImage(img') && img'.fat == fat' && img'.size == img.size && img'.root == img.root
            && Tree(img') == PrunedTree(Tree(img), img.paths, d, k)
  {
    hide *;
    DoneParts(img, grown, d, k, d2, k2, g, up, fat', disk');
    GrownSame(img, grown, d2);
    ItselfParts(img, d, k, d2);
    GrownListed(img, grown, d, k);
    KindFromAttributes(EntryOf(img, d, k), g.entry);
    ValidParts(grown);
    ListedView(grown, d, k);
    IsPrunable(grown, d, k);
    WrittenParts(grown, d, k, d2, k2, g, up, disk');
    MovePrunes(grown, d, k, d2, k2, g, up, disk');
    PruneStep(grown, d, k, MoveTouches(grown, d, d2, g), disk');
    ValidParts(img);
    TreeKeys(img);
  }

  lemma ItselfParts(img: Image, d: nat, k: Key, d2: nat)
    requires IntoItself(img, d, k, d2)
    ensures Listed(img, d, k) && IsDirectory(EntryOf(img, d, k)) && d in img.paths && d2 in img.paths
            && img.paths[d] + [k] <= img.paths[d2]
  {
    hide IsDirectory;
  }

  lemma GrownListed(img: Image, grown: Image, d: nat, k: Key)
    requires Listed(img, d, k) && grown.views == img.views
    ensures Listed(grown, d, k) && EntryOf(grown, d, k) == EntryOf(img, d, k)
  {
  }

  lemma IsPrunable(img: Image, d: nat, k: Key)
    requires Linked(img) && Listed(img, d, k) && !IsDot(k) && d in img.paths && d in img.views
    ensures Prunable(img, d, k)
  {
    hide Linked, IsDot;
  }

  lemma WrittenParts(img: Image, d: nat, k: Key, d2: nat, k2: Key, g: Group, up: Slot, disk': Disk)
    requires RelocateWritten(img, d, k, d2, k2, g, up, disk')
    ensures d in img.views && d2 in img.views && d in img.chains && d2 in img.chains
    ensures DiskOff(img.disk, disk', MoveTouches(img, d, d2, g)) && ValidDisk(disk', img.size)
    ensures ValidDirectory(DirSlots(disk', img.chains[d]), RelocatedView(img, d, k, d2, k2, g, up, d))
  {
    hide ValidDirectory, DirSlots, DiskOff, ValidDisk, RelocatedView, MoveTouches;
  }

  lemma GrownSame(img: Image, grown: Image, d: nat)
    requires DirGrown(img, grown, d)
    ensures grown.size == img.size && grown.root == img.root && grown.views == img.views && grown.paths == img.paths
            && grown.owner == img.owner
  {
  }

  lemma RelocatedSize(img: Image, d: nat, k: Key, d2: nat, k2: Key, g: Group, up: Slot)
    requires Relocatable(img, d, k, d2, k2, g, up)
    ensures Relocated(img, d, k, d2, k2, g, up).size == img.size && Relocated(img, d, k, d2, k2, g, up).root == img.root
  {
    hide FirstCluster, IsDirectory, IsDot, Size, Rebased;
  }

  lemma MoveReady(img: Image, d: nat, k: Key, d2: nat, k2: Key, g: Group, up: Slot, disk': Disk)
    requires RelocateWritten(img, d, k, d2, k2, g, up, disk') && Relocatable(img, d, k, d2, k2, g, up)
    ensures RelocateReady(img, d, k, d2, k2, g, up, disk')
  {
    hide Relocatable, ValidDirectory, DirSlots, ValidDisk, DiskOff, FirstCluster, IsDirectory;
  }

  lemma MoveMovable(img: Image, grown: Image, d: nat, k: Key, d2: nat, k2: Key, g: Group, up: Slot, fat': Table,
                    disk': Disk)
    requires ValidImage(img) && MoveDone(img, grown, d, k, d2, k2, g, up, fat', disk') && !IntoItself(img, d, k, d2)
    ensures Relocatable(grown, d, k, d2, k2, g, up)
  {
    GrownSame(img, grown, d2);
    KindFromAttributes(EntryOf(img, d, k), g.entry);
    hide DirGrown, RelocateWritten, Storage, AllSlots, FirstCluster, Size, IsDirectory, Attributes, Tree, IsDot,
         AllEntries, AllOwners;
    EntryKind(grown, d, k);
    var f := FirstCluster(g.entry);
    PlacedPath(grown, d);
    PlacedPath(grown, d2);
    if IsDirectory(g.entry) {
      UpEntry(grown, d, k, d2, k2, g, f);
    }
  }

  lemma KindFromAttributes(e: Slot, e': Slot)
    requires Attributes(e) == Attributes(e')
    ensures IsDirectory(e) <==> IsDirectory(e')
  {
  }

  lemma MoveStart(vol: Volume, d: nat, k: Key, d2: nat, name: Str, ref: EntryRef)
    requires vol.Valid() && vol.SmallDirectories() && Listed(vol.Now(), d, k) && !IsDot(k) && d2 in vol.views
    requires ref == RefOf(vol.views[d][k])
    ensures |vol.views[d2]| + 3 < ALIAS_LIMIT && ref.entry == EntryOf(vol.Now(), d, k)
    ensures PlainAttributes(Attributes(ref.entry)) && d in vol.chains && d2 in vol.chains
    ensures RenameSlots(vol.Now(), d, k, d2, name) ==
            PiecesFor(name, Others(vol.views[d2], if d == d2 then Some(RawName(ref.entry)) else None)) + 1
    ensures NoRoomToMove(vol.Now(), d, k, d2, name) <==>
            !(d == d2 && RenameSlots(vol.Now(), d, k, d2, name) <= ref.lfns + 1)
            && DirectoryFull(vol.Now(), d2, RenameSlots(vol.Now(), d, k, d2, name))
    ensures RenameGrowth(vol.Now(), d, k, d2, name) ==
            if d == d2 && RenameSlots(vol.Now(), d, k, d2, name) <= ref.lfns + 1 then 0
            else Growth(vol.Now(), d2, RenameSlots(vol.Now(), d, k, d2, name))
  {
    hide ValidImage, ValidDirectory, PiecesFor, DirectoryFull, Growth, Others, SlotsOf, FirstCluster, RawName,
         Attributes,
         PlainAttributes, HasVolumeBit;
    PlainEntry(vol.Now(), d, k);
    ViewPlace(vol.Now(), d2);
  }

  lemma PlainEntry(img: Image, d: nat, k: Key)
    requires ValidImage(img) && Listed(img, d, k)
    ensures PlainAttributes(Attributes(EntryOf(img, d, k))) && d in img.chains
  {
    EntryPlace(img, d, k);
    hide ValidImage, ValidDirectory, SlotsOf;
    LastSlot(SlotsOf(img, d), img.views[d], k);
  }

  /** Entries from build_name_entries are a renaming of the old entry. */
  lemma IsRenaming(img: Image, d: nat, k: Key, d2: nat, name: Str, entries: seq<Slot>, ref: EntryRef)
    requires ValidImage(img) && Listed(img, d, k) && !IsDot(k) && d in img.chains && d2 in img.views && d2 in img.chains
    requires ValidName(name) && Fold(name) !in img.views[d2] && ref == RefOf(img.views[d][k])
    requires PlainAttributes(Attributes(ref.entry))
    requires EntriesFor(entries, name, Attributes(ref.entry), FirstCluster(ref.entry), Size(ref.entry),
                        Others(img.views[d2], if d == d2 then Some(RawName(ref.entry)) else None))
    ensures Renaming(img, d, k, d2, name, entries, ref)
    ensures |entries| == PiecesFor(name, Others(img.views[d2], if d == d2 then Some(RawName(ref.entry)) else None)) + 1
  {
    EntryPlace(img, d, k);
    hide ValidImage, StoredAs, NameSlots, PiecesFor, FirstCluster, Size, Attributes, RawName, ValidName,
         PlainAttributes, SlotsOf;
    if d == d2 {
      EntriesFitBeside(img.views[d], k, name, entries, Attributes(ref.entry), FirstCluster(ref.entry), Size(ref.entry));
    }
  }

  lemma MovedEntryFields(img: Image, d: nat, k: Key, d2: nat, name: Str, entries: seq<Slot>, ref: EntryRef, index: nat)
    requires ValidImage(img) && Renaming(img, d, k, d2, name, entries, ref)
    ensures Listed(img, d, k) && entries != []
    ensures var g, e := GroupFor(name, index, entries), EntryOf(img, d, k);
            FirstCluster(g.entry) == FirstCluster(e) && Size(g.entry) == Size(e) && Attributes(g.entry) == Attributes(e)
  {
    hide *;
    RenamingFacts(img, d, k, d2, name, entries, ref);
    EntriesFields(entries, name, Attributes(ref.entry), FirstCluster(ref.entry), Size(ref.entry),
                  if d == d2 then UsedNames(img.views[d] - {k}) else UsedNames(img.views[d2]));
  }

  /** The names are in place; what is left is ".." of a moved directory. */
  ghost predicate NamesInPlace(img: Image, grown: Image, d: nat, k: Key, d2: nat, k2: Key, g: Group, disk': Disk) {
    && ValidImage(img) && ValidImage(grown) && Tree(grown) == Tree(img) && DirGrown(img, grown, d2)
    && Listed(img, d, k) && d2 in img.views && k2 !in img.views[d2] && !IsDot(k) && !IsDot(k2)
    && (var e := EntryOf(img, d, k);
        FirstCluster(g.entry) == FirstCluster(e) && Size(g.entry) == Size(e) && Attributes(g.entry) == Attributes(e))
    && NamesMoved(grown, d, k, d2, k2, g, disk')
  }

  lemma FinishFacts(img: Image, grown: Image, d: nat, k: Key, d2: nat, k2: Key, g: Group, disk': Disk)
    requires NamesInPlace(img, grown, d, k, d2, k2, g, disk')
    ensures grown.root == img.root && grown.size == img.size && ValidImage(img) && ValidImage(grown)
            && ValidDisk(disk', img.size)
    ensures Listed(img, d, k) && (IsDirectory(EntryOf(img, d, k)) <==> IsDirectory(g.entry)) && !IsDot(k) && !IsDot(k2)
    ensures NamesMoved(grown, d, k, d2, k2, g, disk')
    ensures FirstCluster(g.entry) == FirstCluster(EntryOf(img, d, k))
    ensures IsDirectory(g.entry) ==>
              var f := FirstCluster(g.entry);
              && f in grown.views && f in grown.chains && f != grown.root
              && IsChain(grown.fat, grown.chains[f]) && grown.chains[f][0] == f
  {
    KindFromAttributes(EntryOf(img, d, k), g.entry);
    GrownSame(img, grown, d2);
    hide ValidImage, DirGrown, Tree, FirstCluster, Size, IsDirectory, Attributes, IsChain, ValidDirectory, IsDot;
    ValidParts(grown);
    EntryKind(grown, d, k);
    if IsDirectory(g.entry) {
      ViewPlace(grown, FirstCluster(g.entry));
    }
  }

  lemma FinishDone(img: Image, grown: Image, d: nat, k: Key, d2: nat, k2: Key, g: Group, up: Slot, disk': Disk,
                   disk'': Disk)
    requires NamesInPlace(img, grown, d, k, d2, k2, g, disk')
    requires IsDirectory(g.entry) ==> FirstCluster(up) == if d2 == img.root then 0 else d2
    requires RelocateWritten(grown, d, k, d2, k2, g, up, disk'')
    ensures MoveDone(img, grown, d, k, d2, k2, g, up, grown.fat, disk'')
  {
    KindFromAttributes(EntryOf(img, d, k), g.entry);
    hide ValidImage, DirGrown, Tree, FirstCluster, Size, IsDirectory, Attributes, RelocateWritten, NamesMoved, IsDot;
  }

  method FinishMove(vol: Volume, ghost img: Image, ghost grown: Image, ghost d: nat, ghost k: Key, ref: EntryRef,
                    to: DirectoryRef, ghost k2: Key, ghost g: Group)
    returns (ghost up: Slot)
    requires vol.store.Valid() && vol.Now() == grown.(disk := vol.store.disk[..])
    requires NamesInPlace(img, grown, d, k, to.first, k2, g, vol.store.disk[..])
    requires Listed(img, d, k) && ref.entry == EntryOf(img, d, k) && (to.isRoot <==> to.first as nat == img.root)
    modifies vol, vol.store.disk
    ensures vol.store.Valid()
    ensures MoveDone(img, grown, d, k, to.first, k2, g, up, vol.store.table.View(), vol.store.disk[..])
    ensures vol.Valid() && d in Tree(img) && to.first as nat in Tree(img) && k in Tree(img)[d]
    ensures d in img.paths && img.paths.Keys == Tree(img).Keys
    ensures Tree(vol.Now()) == MoveOutcome(img, d, k, to.first, k2)
  {
    hide *;
    ghost var d2: nat := to.first;
    ghost var disk' := vol.store.disk[..];
    up := ZeroSlot;
    FinishFacts(img, grown, d, k, d2, k2, g, disk');
    DiskNow(vol, grown);
    if IsDirectory(ref.entry) {
      ghost var cs := grown.chains[FirstCluster(g.entry)];
      var parent: U32 := if to.isRoot then 0 else to.first;
      DiskIsValid(vol.store, cs);
      up := WithFirstCluster(SecondOf(DirSlots(disk', cs)), parent);
      UpdateDirectoryParent(vol.store, FirstCluster(ref.entry), parent, cs);
      DiskIsValid(vol.store, cs);
      OffClusters(disk', vol.store.disk[..], cs);
      DirectoryWritten(grown, d, k, d2, k2, g, up, disk', vol.store.disk[..]);
    } else {
      FileWritten(grown, d, k, d2, k2, g, up, disk');
    }
    FinishDone(img, grown, d, k, d2, k2, g, up, disk', vol.store.disk[..]);
    Settle(vol, img, grown, d, k, d2, k2, g, up);
  }

  ghost function SecondOf(slots: seq<Slot>): (s: Slot)
    ensures |slots| > 1 ==> s == slots[1]
  {
    if |slots| > 1 then slots[1] else ZeroSlot
  }

  lemma DiskNow(vol: Volume, img: Image)
    requires vol.Now() == img.(disk := vol.store.disk[..])
    ensures vol.store.size == img.size && vol.root as nat == img.root && vol.store.table.View() == img.fat
  {
  }

  ghost method Settle(vol: Volume, img: Image, grown: Image, d: nat, k: Key, d2: nat, k2: Key, g: Group, up: Slot)
    requires vol.store.Valid() && ValidImage(img) && vol.store.size == img.size && vol.root as nat == img.root
    requires MoveDone(img, grown, d, k, d2, k2, g, up, vol.store.table.View(), vol.store.disk[..])
    modifies vol
    ensures vol.Valid() && d in Tree(img) && d2 in Tree(img) && k in Tree(img)[d]
    ensures d in img.paths && img.paths.Keys == Tree(img).Keys
    ensures Tree(vol.Now()) == MoveOutcome(img, d, k, d2, k2)
  {
    hide *;
    MovePlaces(img, grown, d, k, d2, k2, g, up, vol.store.table.View(), vol.store.disk[..]);
    OutcomeIs(img, d, k, d2, k2);
    if !IntoItself(img, d, k, d2) {
      MoveSettles(img, grown, d, k, d2, k2, g, up, vol.store.table.View(), vol.store.disk[..]);
      vol.Adopt(Relocated(grown, d, k, d2, k2, g, up).(disk := vol.store.disk[..]));
    } else {
      MoveLoses(img, grown, d, k, d2, k2, g, up, vol.store.table.View(), vol.store.disk[..]);
      vol.Adopt(Pruned(grown, d, k).(disk := vol.store.disk[..]));
    }
  }

  lemma PlaceNames(img: Image, grown: Image, d: nat, k: Key, d2: nat, name: Str, g: Group, disk': Disk)
    requires ValidImage(img) && ValidImage(grown) && Tree(grown) == Tree(img) && DirGrown(img, grown, d2)
    requires Listed(img, d, k) && d2 in img.views && ValidName(name) && Fold(name) !in img.views[d2] && !IsDot(k)
    requires var e := EntryOf(img, d, k);
             FirstCluster(g.entry) == FirstCluster(e) && Size(g.entry) == Size(e)
               && Attributes(g.entry) == Attributes(e)
    requires NamesMoved(grown, d, k, d2, Fold(name), g, disk')
    ensures NamesInPlace(img, grown, d, k, d2, Fold(name), g, disk')
  {
    NotDotName(name);
    hide ValidImage, Tree, DirGrown, FirstCluster, Size, Attributes, NamesMoved, IsDot;
  }

  method MoveName(vol: Volume, dir: U32, ghost k: Key, ref: EntryRef, to: DirectoryRef, name: Str)
    returns (r: Result, ghost grown: Image, ghost g: Group, ghost up: Slot)
    requires vol.Valid() && vol.SmallDirectories() && Listed(vol.Now(), dir, k) && !IsDot(k)
    requires ref == RefOf(vol.views[dir][k]) && to.first as nat in vol.views && (to.isRoot <==> to.first == vol.root)
    requires ValidName(name) && Fold(name) !in vol.views[to.first]
    modifies vol, vol.store.disk, vol.store.table.entries
    ensures vol.store.Valid()
    ensures r == if old(NoRoomToMove(vol.Now(), dir, k, to.first, name)) then NoSpace else Ok
    ensures r == NoSpace ==> vol.Valid() && vol.Now() == old(vol.Now())
    ensures r == Ok ==> MoveDone(old(vol.Now()), grown, dir, k, to.first, Fold(name), g, up, vol.store.table.View(),
            vol.store.disk[..])
    ensures r == Ok ==>
              && vol.Valid() && dir as nat in old(Tree(vol.Now())) && to.first as nat in old(Tree(vol.Now()))
                && k in old(Tree(vol.Now()))[dir]
              && dir as nat in old(vol.Now()).paths && old(vol.Now()).paths.Keys == old(Tree(vol.Now())).Keys
              && Tree(vol.Now()) == MoveOutcome(old(vol.Now()), dir, k, to.first, Fold(name))
    ensures to.first as nat in old(vol.chains)
    ensures r == Ok ==>
              OnlyGrew(old(vol.Now()), grown, to.first, old(RenameGrowth(vol.Now(), dir, k, to.first, name)))
  {
    hide *;
    ghost var img := vol.Now();
    ghost var d: nat := dir;
    ghost var d2: nat := to.first;
    vol.Parts();
    vol.DirFacts(d2);
    VolumeIs(vol, img);
    MoveStart(vol, d, k, d2, name, ref);
    grown, up := img, ZeroSlot;
    var entries;
    var same := dir == to.first;
    r, entries := BuildNameEntries(vol.store, to.first, name, Attributes(ref.entry), FirstCluster(ref.entry),
      Size(ref.entry),
                                   if same then Some(RawName(ref.entry)) else None, vol.chains[d2], vol.views[d2]);
    IsRenaming(img, d, k, d2, name, entries, ref);
    ghost var index;
    if same && |entries| <= ref.lfns + 1 {
      MoveInPlace(vol, dir, k, ref, name, entries);
      index := ref.index - ref.lfns;
      NotGrown(img, d2);
      DirOnlyGrew(img, img, d2, 0);
      OnlyDisk(vol, img);
    } else {
      r, grown, index := MoveElsewhere(vol, dir, k, ref, to.first, name, entries);
      if r != Ok {
        g := Group(0, 0, [], ZeroSlot);
        return;
      }
    }
    g := GroupFor(name, index, entries);
    MovedEntryFields(img, d, k, d2, name, entries, ref, index);
    PlaceNames(img, grown, d, k, d2, name, g, vol.store.disk[..]);
    up := FinishMove(vol, img, grown, d, k, ref, to, Fold(name), g);
  }

  /** What renaming between two located names returns; `below` is the outcome of the string test. */
  ghost function RenameAtResult(img: Image, d: nat, name: Str, d2: nat, name2: Str, below: bool): Result
    requires d2 in img.views
  {
    if !Listed(img, d, Fold(name)) then NotFound
    else if IsDirectory(EntryOf(img, d, Fold(name))) && below then InvalidName
    else if Listed(img, d2, Fold(name2)) then AlreadyExists
    else if NoRoomToMove(img, d, Fold(name), d2, name2) then NoSpace
    else Ok
  }

  ghost function RenameResult(img: Image, oldPath: Str, newPath: Str): Result
    requires ValidImage(img)
  {
    LocatedPlace(img, oldPath);
    LocatedPlace(img, newPath);
    if oldPath == newPath then Ok
    else match Locate(img, oldPath)
      case Fails(e) => e
      case In(d, name) =>
        match Locate(img, newPath)
        case Fails(e) => e
        case In(d2, name2) =>
          RenameAtResult(img, d, name, d2, name2, LastSlash(newPath) >= 0 && DescendantOf(ParentOf(newPath), oldPath))
  }

  lemma RenamePaths(img: Image, oldPath: Str, newPath: Str)
    requires ValidImage(img) && oldPath != newPath
    ensures var l, l2 := Locate(img, oldPath), Locate(img, newPath);
            && (l.Fails? ==> RenameResult(img, oldPath, newPath) == l.result && l.result != Ok)
            && (l.In? && l2.Fails? ==> RenameResult(img, oldPath, newPath) == l2.result && l2.result != Ok)
            && (l.In? && l2.In? ==>
                  && oldPath != [] && l2.dir in img.views && ValidName(l2.name) && !IsDot(Fold(l.name))
                  && RenameResult(img, oldPath, newPath) ==
                     RenameAtResult(img, l.dir, l.name, l2.dir, l2.name, LastSlash(newPath) >= 0
                       && DescendantOf(ParentOf(newPath), oldPath)))
  {
    LocatedPlace(img, oldPath);
    LocatedPlace(img, newPath);
    LocatedNonEmpty(img, oldPath);
    hide ValidImage, Locate, RenameAtResult, Fold, Tree, DescendantOf, ValidName, IsDot;
  }

  lemma LocatedNonEmpty(img: Image, path: Str)
    ensures Locate(img, path).In? ==> path != []
  {
    hide LocateIn;
  }

  lemma RenameAtCases(img: Image, d: nat, name: Str, d2: nat, name2: Str, below: bool)
    requires d2 in img.views
    ensures RenameAtResult(img, d, name, d2, name2, below) ==
            if !Listed(img, d, Fold(name)) then NotFound
            else if IsDirectory(EntryOf(img, d, Fold(name))) && below then InvalidName
            else if Listed(img, d2, Fold(name2)) then AlreadyExists
            else if NoRoomToMove(img, d, Fold(name), d2, name2) then NoSpace else Ok
  {
    hide Listed, IsDirectory, NoRoomToMove, Fold, EntryOf;
  }

  /** `fat32_rename`: one name moves and every other name and all contents stay; a failed rename
      changes nothing.  The exception is a directory moved into itself, which the string test stops
      for every pair of canonical paths but not for others: then the directory and all below it are
      gone.  The volume is valid in every case. */
  method Rename(vol: Volume, oldPath: Str, newPath: Str)
                returns (r: Result, ghost grown: Image, ghost g: Group, ghost up: Slot)
    requires vol.Valid() && vol.SmallDirectories()
    requires oldPath != newPath ==> ParentFits(oldPath) && ParentFits(newPath)
    modifies vol, vol.store.disk, vol.store.table.entries
    ensures vol.Valid()
    ensures r == old(RenameResult(vol.Now(), oldPath, newPath))
    ensures r != Ok || oldPath == newPath ==> vol.Now() == old(vol.Now())
    ensures r == Ok && oldPath != newPath ==>
              var l, l2 := old(Locate(vol.Now(), oldPath)), old(Locate(vol.Now(), newPath));
              && l.In? && l2.In?
              && MoveDone(old(vol.Now()), grown, l.dir, Fold(l.name), l2.dir, Fold(l2.name), g, up,
                vol.store.table.View(), vol.store.disk[..])
              && l.dir in old(Tree(vol.Now())) && l2.dir in old(Tree(vol.Now()))
                && Fold(l.name) in old(Tree(vol.Now()))[l.dir]
              && l.dir in old(vol.Now()).paths && old(vol.Now()).paths.Keys == old(Tree(vol.Now())).Keys
              && Tree(vol.Now()) == MoveOutcome(old(vol.Now()), l.dir, Fold(l.name), l2.dir, Fold(l2.name))
              && Listed(old(vol.Now()), l.dir, Fold(l.name)) && l2.dir in old(vol.Now()).views
              && l2.dir in old(vol.Now()).chains
              && OnlyGrew(old(vol.Now()), grown, l2.dir,
                   RenameGrowth(old(vol.Now()), l.dir, Fold(l.name), l2.dir, l2.name))
  {
    hide *;
    ghost var img := vol.Now();
    vol.Parts();
    grown, g, up := img, Group(0, 0, [], ZeroSlot), ZeroSlot;
    if oldPath == newPath {
      SamePaths(img, oldPath);
      return Ok, grown, g, up;
    }
    RenamePaths(img, oldPath, newPath);
    VolumeIs(vol, img);
    var dir, name, parent;
    r, dir, name, parent := LookupParentAndName(vol, oldPath);
    if r != Ok {
      return;
    }
    var to, name2, parent2;
    r, to, name2, parent2 := LookupParentAndName(vol, newPath);
    if r != Ok {
      return;
    }
    var below := PathIsDescendantOf(parent2, oldPath);
    RenameAtCases(img, dir.first, name, to.first, name2, below);
    var ref;
    r, ref := vol.FindIn(dir.first, name);
    if r != Ok {
      return;
    }
    vol.ListedMeans(dir.first, Fold(name));
    RefEntry(vol.views[dir.first][Fold(name)]);
    if IsDirectory(ref.entry) && below {
      return InvalidName, grown, g, up;
    }
    var found, existing := vol.FindIn(to.first, name2);
    vol.ListedMeans(to.first, Fold(name2));
    if found == Ok {
      return AlreadyExists, grown, g, up;
    }
    r, grown, g, up := MoveName(vol, dir.first, Fold(name), ref, to, name2);
  }

  /** A rename that changes nothing but case is refused. */
  lemma CaseOnlyRefused(img: Image, oldPath: Str, newPath: Str)
    requires ValidImage(img) && oldPath != newPath && Locate(img, oldPath).In? && Locate(img, newPath).In?
    requires var l, l2 := Locate(img, oldPath), Locate(img, newPath);
             l.dir == l2.dir && Fold(l.name) == Fold(l2.name) && Listed(img, l.dir, Fold(l.name))
    requires LastSlash(newPath) >= 0 && !DescendantOf(ParentOf(newPath), oldPath)
    ensures RenameResult(img, oldPath, newPath) == AlreadyExists
  {
    hide ValidImage, Locate, DescendantOf, RenameAtResult, RenameResult, Fold, Tree;
    RenamePaths(img, oldPath, newPath);
    var l, l2 := Locate(img, oldPath), Locate(img, newPath);
    RenameAtCases(img, l.dir, l.name, l2.dir, l2.name, false);
  }

  lemma SamePaths(img: Image, path: Str)
    requires ValidImage(img)
    ensures RenameResult(img, path, path) == Ok
  {
    hide ValidImage, Locate, RenameAtResult;
  }
}
