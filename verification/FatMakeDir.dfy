/** Making a directory: fat32_make_dir. */
module FatMakeDir {
  import opened Bytes
  import opened FatSlots
  import opened FatNames
  import opened FatTables
  import opened FatBlocks
  import opened FatDirectory
  import opened FatStore
  import opened FatData
  import opened FatImage
  import opened FatSteps
  import opened FatLinks
  import opened FatMoves
  import opened FatLookup
  import opened FatVolume
  import opened FatNaming
  import opened FatWrites

  // --------------------------------------------------------- the first cluster

  /** `fill_special_dir_name` */
  method FillSpecialName(name: Str) returns (out: Raw)
    requires |name| <= 2 && 0 !in name
    ensures out == SpecialName(name)
  {
    out := Spaces(11);
    var i := 0;
    while i < |name| && i < 11
      invariant 0 <= i <= |name|
      invariant out == name[..i] + Spaces(11 - i)
    {
      assert name[..i + 1] == name[..i] + [name[i]];
      assert Spaces(11 - i)[1..] == Spaces(11 - i - 1);
      out := out[i := name[i]];
      i := i + 1;
    }
  }

  function SpecialName(name: Str): Raw
    requires |name| <= 2
  {
    Pad(name, 11)
  }

  function DotEntry(f: nat): Slot
    requires f < 0x1_0000_0000
  {
    ShortEntry(SpecialName([DOT]), ATTR_DIRECTORY, f, 0)
  }

  function DotDotEntry(up: nat): Slot
    requires up < 0x1_0000_0000
  {
    ShortEntry(SpecialName([DOT, DOT]), ATTR_DIRECTORY, up, 0)
  }

  /** The slots of a fresh directory: the two dots, then nothing. */
  predicate FreshSlots(slots: seq<Slot>, f: nat, up: nat)
    requires f < 0x1_0000_0000 && up < 0x1_0000_0000
  {
    && |slots| >= 2 && slots[0] == DotEntry(f) && slots[1] == DotDotEntry(up)
    && forall p: nat | 2 <= p < |slots| :: IsEnd(slots[p])
  }

  ghost function DotNames(f: nat, up: nat): View
    requires f < 0x1_0000_0000 && up < 0x1_0000_0000
  {
    map[[DOT] := Group(0, 0, [DOT], DotEntry(f)), [DOT, DOT] := Group(1, 0, [DOT, DOT], DotDotEntry(up))]
  }

  lemma SpecialNameReads(name: Str)
    requires name == [DOT] || name == [DOT, DOT]
    ensures FormatShort(SpecialName(name)) == name && Fold(name) == name && 0 !in name
    ensures SpecialName(name)[0] == DOT
  {
    var raw := SpecialName(name);
    assert raw[..8] == Pad(name, 8);
    UntilSpacePadded(name, 8);
  }

  lemma DotEntryLive(e: Slot, name: Str)
    requires name == [DOT] || name == [DOT, DOT]
    requires RawName(e) == SpecialName(name) && Attributes(e) == ATTR_DIRECTORY
    ensures IsLive(e) && !IsLfn(e) && IsSpecial(e) && !IsFreeSlot(e) && IsDirectory(e)
  {
    SpecialNameReads(name);
    assert e[0] == RawName(e)[0];
  }

  lemma DotsEntered(slots: seq<Slot>, f: nat, up: nat, k: Str)
    requires f < 0x1_0000_0000 && up < 0x1_0000_0000 && FreshSlots(slots, f, up) && k in DotNames(f, up)
    ensures Entered(slots, DotNames(f, up), k)
  {
    SpecialNameReads([DOT]);
    SpecialNameReads([DOT, DOT]);
    DotEntryLive(DotEntry(f), [DOT]);
    DotEntryLive(DotDotEntry(up), [DOT, DOT]);
    hide FormatShort, SpecialName, DotEntry, DotDotEntry, Fold;
    assert slots[0..0] == [] && slots[1..1] == [];
  }

  /** A fresh directory is a valid one whose only names are the dots. */
  lemma FreshDirectory(slots: seq<Slot>, f: nat, up: nat)
    requires f < 0x1_0000_0000 && up < 0x1_0000_0000 && FreshSlots(slots, f, up)
    ensures ValidDirectory(slots, DotNames(f, up))
  {
    hide DotNames, FreshSlots, Entered, AllDistinct, AllCovered, EndsOnce;
    forall k | k in DotNames(f, up) ensures Entered(slots, DotNames(f, up), k) {
      DotsEntered(slots, f, up, k);
    }
    DotsCovered(slots, f, up);
    DotsEnd(slots, f, up);
    DotsDistinct(f, up);
  }

  lemma DotsCovered(slots: seq<Slot>, f: nat, up: nat)
    requires f < 0x1_0000_0000 && up < 0x1_0000_0000 && FreshSlots(slots, f, up)
    ensures AllCovered(slots, DotNames(f, up))
  {
    hide DotEntry, DotDotEntry;
    var view := DotNames(f, up);
    assert [DOT] != [DOT, DOT];
    assert [DOT] in view && Within(view[[DOT]], 0);
    assert [DOT, DOT] in view && Within(view[[DOT, DOT]], 1);
  }

  lemma DotsEnd(slots: seq<Slot>, f: nat, up: nat)
    requires f < 0x1_0000_0000 && up < 0x1_0000_0000 && FreshSlots(slots, f, up)
    ensures EndsOnce(slots)
  {
    DotEntryLive(DotEntry(f), [DOT]);
    DotEntryLive(DotDotEntry(up), [DOT, DOT]);
    hide DotEntry, DotDotEntry, IsDirectory;
  }

  lemma DotsDistinct(f: nat, up: nat)
    requires f < 0x1_0000_0000 && up < 0x1_0000_0000
    ensures AllDistinct(DotNames(f, up))
  {
    DotsDiffer();
    hide SpecialName;
  }

  lemma DotsDiffer()
    ensures SpecialName([DOT]) != SpecialName([DOT, DOT]) && [DOT] != [DOT, DOT]
  {
    assert SpecialName([DOT])[1] == SPACE && SpecialName([DOT, DOT])[1] == DOT;
  }

  method WriteDots(store: Store, c: U32, up: U32)
    requires store.Valid() && c as nat < store.disk.Length
    modifies store.disk
    ensures store.Valid()
    ensures forall x | 0 <= x < store.disk.Length && x != c as nat :: store.disk[x] == old(store.disk[x])
    ensures FreshSlots(Slots(store.disk[c]), c, up)
  {
    var here := FillSpecialName([DOT]);
    var above := FillSpecialName([DOT, DOT]);
    var buffer := Zeros(store.size);
    FreshBuffer(store.size, c, up);
    buffer := PutSlot(buffer, 0, ShortEntry(here, ATTR_DIRECTORY, c, 0));
    buffer := PutSlot(buffer, 1, ShortEntry(above, ATTR_DIRECTORY, up, 0));
    hide FreshSlots, PutSlot, SpecialName;
    store.disk[c] := buffer;
  }

  lemma FreshBuffer(size: nat, f: nat, up: nat)
    requires size >= 512 && f < 0x1_0000_0000 && up < 0x1_0000_0000
    ensures FreshSlots(Slots(PutSlot(PutSlot(Zeros(size), 0, DotEntry(f)), 1, DotDotEntry(up))), f, up)
  {
    PutSlotReads(Zeros(size), 0, DotEntry(f));
    PutSlotReads(PutSlot(Zeros(size), 0, DotEntry(f)), 1, DotDotEntry(up));
    ZeroSlots(size);
    hide DotEntry, DotDotEntry, SlotAt, PutSlot;
  }

  // ------------------------------------------------------------ the operation

  ghost function MakeDirResult(img: Image, path: Str): Result
    requires ValidImage(img)
  {
    LocatedPlace(img, path);
    match Locate(img, path)
    case Fails(e) => e
    case In(d, name) => MakeDirAtResult(img, d, name)
  }

  ghost function MakeDirAtResult(img: Image, d: nat, name: Str): Result
    requires d in img.views && d in img.chains
  {
    if Listed(img, d, Fold(name)) then AlreadyExists
    else if |FreeClusters(img.fat)| < 1 + (if HasRun(SlotsOf(img, d), SlotsNeeded(img, d, name)) then 0
      else 1) then NoSpace
    else Ok
  }

  /** The new directory before it has a name. */
  lemma UnnamedDirectory(img: Image, d: nat, fat': Table, disk': Disk, c: nat, up: nat)
    requires ValidImage(img) && d in img.views && c < |disk'| && c < 0x1_0000_0000 && up < 0x1_0000_0000
    requires Grown(img.fat, fat', [c]) && DiskOff(img.disk, disk', [c]) && ValidDisk(disk', img.size)
    requires FreshSlots(Slots(disk'[c]), c, up) && up == (if d == img.root then 0 else d)
    ensures var img1 := img.(fat := fat', disk := disk');
            && ValidImage(img1) && Tree(img1) == Tree(img) && SameDirectory(img, img1, d)
            && FreeClusters(fat') == FreeClusters(img.fat) - SetOf([c])
            && |FreeClusters(fat')| == |FreeClusters(img.fat)| - 1
            && Newcomer(img1, d, ATTR_DIRECTORY, c, 0, [c], DotNames(c, up))
            && NewNode(img1, ATTR_DIRECTORY, c, 0, [c]) == DirNode(c)
            && c !in Tree(img)
  {
    ValidParts(img);
    GrownOne(img.fat, fat', c);
    FreeIsUnowned(img, [c]);
    OneSlots(disk', c);
    FreshDirectory(Slots(disk'[c]), c, up);
    hide Storage, Linked, AllSlots, ValidImage, Tree, IsChain, FreeClusters, Grown, ValidDisk, DirSlots, FreshSlots,
         ValidDirectory, Slots, SlotsOf, DotEntry, DotDotEntry;
    OrphanStep(img, fat', disk', [c]);
    var img1 := img.(fat := fat', disk := disk');
    DirectorySame(img, img1, d);
    assert Unowned(img1, [c]);
    ValidParts(img1);
    NewHeadUnknown(img1, c, [c]);
    NotATree(img, c);
    DotsFresh(img1, c, d, up);
  }

  lemma DotsFresh(img: Image, c: nat, d: nat, up: nat)
    requires c < 0x1_0000_0000 && up < 0x1_0000_0000 && up == (if d == img.root then 0 else d)
    ensures FreshDots(img, DotNames(c, up), c, d)
  {
    hide SpecialName;
    assert [DOT] != [DOT, DOT];
  }

  lemma NotATree(img: Image, c: nat)
    requires Linked(img) && c !in img.chains
    ensures c !in Tree(img)
  {
    hide AllPlaced, AllOwners, AllEntries, Listing;
  }

  lemma GrownOne(fat: Table, fat': Table, c: nat)
    requires Grown(fat, fat', [c])
    ensures IsFree(fat, c) && IsChain(fat', [c]) && AgreeOff(fat, fat', [c]) && c >= 2
    ensures FreeClusters(fat') == FreeClusters(fat) - SetOf([c])
    ensures |FreeClusters(fat')| == |FreeClusters(fat)| - 1
  {
    assert c in [c];
    assert SetOf([c]) == {c};
    assert c in FreeClusters(fat);
  }

  lemma OneSlots(disk: Disk, c: nat)
    requires c < |disk|
    ensures DirSlots(disk, [c]) == Slots(disk[c])
  {
    var blocks := SlotBlocks(disk, [c]);
    assert blocks == [Slots(disk[c])];
    FlatSingle(Slots(disk[c]));
  }

  /** What a mkdir in a directory does to the clusters: one for the new directory and one more if its
      parent grows, or, without the room, whatever was still free. */
  ghost predicate MakeAccounts(img: Image, img': Image, d: nat, name: Str, made: nat, r: Result)
    requires d in img.views && d in img.chains
  {
    if r == Ok then
      Spent(img, img', d, Fold(name), Growth(img, d, SlotsNeeded(img, d, name)))
        && HeldBy(img', d, Fold(name)) == [made]
    else if r == NoSpace then
      img' == img.(fat := img'.fat, disk := img'.disk) && FreeClusters(img'.fat) == {}
    else img' == img
  }

  /** A mkdir that ran out of space leaves the free clusters as they were if and only if there were
      none: the cluster it takes first is not given back. */
  lemma MakeLeaks(img: Image, img': Image, d: nat, name: Str, made: nat)
    requires d in img.views && d in img.chains && MakeAccounts(img, img', d, name, made, NoSpace)
    ensures FreeClusters(img'.fat) == FreeClusters(img.fat) <==> FreeClusters(img.fat) == {}
    ensures FreeClusters(img'.fat) == {} && img'.chains == img.chains
  {
    hide FreeClusters;
  }

  lemma MakeAccountsOk(img: Image, img': Image, d: nat, name: Str, made: nat)
    requires d in img.views && d in img.chains
    requires Spent(img, img', d, Fold(name), Growth(img, d, SlotsNeeded(img, d, name)))
    requires HeldBy(img', d, Fold(name)) == [made]
    ensures MakeAccounts(img, img', d, name, made, Ok)
  {
  }

  lemma MakeAccountsFull(img: Image, img': Image, d: nat, name: Str, made: nat)
    requires d in img.views && d in img.chains
    requires img' == img.(fat := img'.fat, disk := img'.disk) && FreeClusters(img'.fat) == {}
    ensures MakeAccounts(img, img', d, name, made, NoSpace)
  {
    hide FreeClusters;
  }

  lemma MakeAccountsSame(img: Image, d: nat, name: Str, made: nat)
    requires d in img.views && d in img.chains
    ensures MakeAccounts(img, img, d, name, made, AlreadyExists)
    ensures FreeClusters(img.fat) == {} ==> MakeAccounts(img, img, d, name, made, NoSpace)
  {
    hide FreeClusters;
  }

  lemma NoneFree(fat: Table)
    ensures |FreeClusters(fat)| < 1 ==> FreeClusters(fat) == {}
  {
    hide FreeClusters;
  }

  /** `fat32_make_dir`: exactly one new, empty directory under the name, or no change at all. */
  method MakeDir(vol: Volume, path: Str) returns (r: Result, ghost made: nat)
    requires vol.Valid() && vol.SmallDirectories() && ParentFits(path)
    modifies vol, vol.store.disk, vol.store.table.entries
    ensures vol.Valid()
    ensures r == old(MakeDirResult(vol.Now(), path))
    ensures r != Ok ==> Tree(vol.Now()) == old(Tree(vol.Now()))
    ensures r == Ok ==> var l := old(Locate(vol.Now(), path));
                        && l.In? && l.dir in old(Tree(vol.Now())) && made !in old(Tree(vol.Now()))
                        && Tree(vol.Now()) == AttachedTree(old(Tree(vol.Now())), l.dir, Fold(l.name), DirNode(made))
    ensures var img, l := old(vol.Now()), old(Locate(vol.Now(), path));
            if l.Fails? then vol.Now() == img
            else l.dir in img.views && l.dir in img.chains && MakeAccounts(img, vol.Now(), l.dir, l.name, made, r)
  {
    hide *;
    made := 0;
    ghost var img := vol.Now();
    vol.Parts();
    LocatedPlace(img, path);
    VolumeIs(vol, img);
    MakeDirCases(img, path);
    var dir, name, parent;
    r, dir, name, parent := LookupParentAndName(vol, path);
    if r != Ok {
      return;
    }
    MakeDirAtCases(img, dir.first, name);
    var found, existing := vol.FindIn(dir.first, name);
    vol.ListedMeans(dir.first, Fold(name));
    if found == Ok {
      MakeAccountsSame(img, dir.first, name, made);
      return AlreadyExists, made;
    }
    r, made := MakeDirIn(vol, dir, name);
  }

  lemma MakeDirCases(img: Image, path: Str)
    requires ValidImage(img)
    ensures match Locate(img, path)
            case Fails(e) => MakeDirResult(img, path) == e && e != Ok
            case In(d, name) =>
              d in img.views && d in img.chains && MakeDirResult(img, path) == MakeDirAtResult(img, d, name)
  {
    LocatedPlace(img, path);
    hide ValidImage, Locate, MakeDirAtResult, Fold, Tree;
  }

  lemma MakeDirAtCases(img: Image, d: nat, name: Str)
    requires d in img.views && d in img.chains
    ensures MakeDirAtResult(img, d, name) ==
            if Listed(img, d, Fold(name)) then AlreadyExists
            else if |FreeClusters(img.fat)| < 1 + (if HasRun(SlotsOf(img, d), SlotsNeeded(img, d, name)) then 0
              else 1) then NoSpace
            else Ok
  {
    hide HasRun, SlotsOf, FreeClusters, SlotsNeeded, Listed, Fold;
  }

  lemma GrownInside(fat: Table, fat': Table, c: nat)
    requires IsFree(fat, c) && AgreeOff(fat, fat', [c])
    ensures c < |fat'|
  {
  }

  lemma DotsOff(disk: Disk, zeroed: Disk, disk': Disk, c: nat, size: nat)
    requires Zeroed(disk, zeroed, [c], size) && |disk'| == |zeroed|
    requires forall x | 0 <= x < |disk'| && x != c :: disk'[x] == zeroed[x]
    ensures DiskOff(disk, disk', [c])
  {
  }

  method MakeDirIn(vol: Volume, dir: DirectoryRef, name: Str) returns (r: Result, ghost made: nat)
    requires vol.Valid() && vol.SmallDirectories() && dir.first as nat in vol.views && dir.first as nat in vol.chains
    requires dir.isRoot <==> dir.first == vol.root
    requires ValidName(name) && !Listed(vol.Now(), dir.first, Fold(name))
    modifies vol, vol.store.disk, vol.store.table.entries
    ensures vol.Valid()
    ensures r == old(MakeDirAtResult(vol.Now(), dir.first, name))
    ensures r == NoSpace ==> Tree(vol.Now()) == old(Tree(vol.Now()))
    ensures r == Ok ==> dir.first as nat in old(Tree(vol.Now())) && made !in old(Tree(vol.Now()))
    ensures r == Ok ==> Tree(vol.Now()) == AttachedTree(old(Tree(vol.Now())), dir.first, Fold(name), DirNode(made))
    ensures MakeAccounts(old(vol.Now()), vol.Now(), dir.first, name, made, r)
  {
    hide *;
    made := 0;
    ghost var img := vol.Now();
    ghost var d: nat := dir.first;
    vol.Parts();
    VolumeIs(vol, img);
    MakeDirAtCases(img, d, name);
    vol.ListedMeans(d, Fold(name));
    var first;
    ghost var cs;
    r, first, cs := AllocateChain(vol.store, 1);
    NowChanged(vol, img);
    if r != Ok {
      NoneFree(img.fat);
      MakeAccountsSame(img, d, name, made);
      vol.Adopt(img);
      return;
    }
    made := first;
    var up: U32 := if dir.isRoot then 0 else dir.first;
    assert cs == [first as nat];
    ghost var zeroed := vol.store.disk[..];
    GrownOne(img.fat, vol.store.table.View(), first);
    GrownInside(img.fat, vol.store.table.View(), first);
    WriteDots(vol.store, first, up);
    NowChanged(vol, img);
    DiskIsValid(vol.store, cs);
    DotsOff(img.disk, zeroed, vol.store.disk[..], first, vol.store.size);
    UnnamedDirectory(img, d, vol.store.table.View(), vol.store.disk[..], first, up);
    FullAfter(img, vol.Now(), d, name, 1);
    ValidAgain(vol, img);
    ghost var img1 := vol.Now();
    FullIsEmpty(img1, d, SlotsNeeded(img1, d, name));
    r := EnterName(vol, dir.first, name, ATTR_DIRECTORY, first, 0, [first as nat], DotNames(first, up));
    if r == Ok {
      SameGrowth(img, img1, d, name);
      EnteredSpent(img, img1, vol.Now(), d, Fold(name), [first as nat], Growth(img1, d, SlotsNeeded(img1, d, name)));
      MakeAccountsOk(img, vol.Now(), d, name, made);
    } else {
      MakeAccountsFull(img, img1, d, name, made);
    }
  }
}
