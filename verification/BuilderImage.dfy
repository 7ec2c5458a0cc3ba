/** A disk that holds a laid-out tree is a valid volume, and what the volume lists is the tree. */
module BuilderImage {
  import opened Bytes
  import opened FatSlots
  import opened FatNames
  import opened FatTables
  import opened FatBlocks
  import opened FatDirectory
  import opened FatImage
  import opened FatLinks
  import opened FatMakeDir
  import opened BuilderNames
  import opened BuilderTree
  import opened BuilderRegistry

  // ------------------------------------------------------------- contents

  /** A folder's slots before its entries: the dots, below the root, then nothing. */
  function FrontSlot(isRoot: bool, at: nat, up: nat, p: nat): Slot
    requires at < 0x1_0000_0000 && up < 0x1_0000_0000
  {
    if !isRoot && p == 0 then DotEntry(at) else if !isRoot && p == 1 then DotDotEntry(up) else ZeroSlot
  }

  function Front(n: nat, isRoot: bool, at: nat, up: nat): (slots: seq<Slot>)
    requires at < 0x1_0000_0000 && up < 0x1_0000_0000
    ensures |slots| == n && forall p: nat | p < n :: slots[p] == FrontSlot(isRoot, at, up, p)
  {
    seq(n, p requires 0 <= p < n => FrontSlot(isRoot, at, up, p))
  }

  function Payload(item: Item, isRoot: bool, at: nat, up: nat): (slots: seq<Slot>)
    requires item.Folder? && Fitting(item.children, at + Need(item, isRoot)) && at < 0x1_0000_0000 && up < 0x1_0000_0000
    ensures |slots| == Need(item, isRoot) * PER_SECTOR
  {
    RoomFor(item, isRoot);
    Overwrite(Front(Need(item, isRoot) * PER_SECTOR, isRoot, at, up), FirstChildSlot(isRoot),
      EntriesOf(item.children, at + Need(item, isRoot)))
  }

  lemma RoomFor(item: Item, isRoot: bool)
    ensures item.Folder? ==> FirstChildSlot(isRoot) + |item.children| <= Need(item, isRoot) * PER_SECTOR
  {
  }

  /** The clusters of an item hold what it should. */
  ghost predicate HoldsOwn(item: Item, isRoot: bool, at: nat, up: nat, disk: Disk)
    requires FitsAt(item, isRoot, at) && up < 0x1_0000_0000
  {
    match item
    case File(_, data) =>
      var bytes := ChainBytes(disk, Clusters(item, isRoot, at));
      |data| <= |bytes| && bytes[..|data|] == data
    case Folder(_, children) =>
      FolderFits(item, isRoot, at);
      DirSlots(disk, Clusters(item, isRoot, at)) == Payload(item, isRoot, at, up)
  }

  ghost predicate Holds(item: Item, isRoot: bool, at: nat, up: nat, disk: Disk)
    requires FitsAt(item, isRoot, at) && up < 0x1_0000_0000
    decreases item
  {
    && HoldsOwn(item, isRoot, at, up, disk)
    && (item.Folder? ==> (FolderFits(item, isRoot, at); HoldsAll(item.children, at + Need(item, isRoot), at, disk)))
  }

  ghost predicate HoldsAll(items: seq<Item>, at: nat, dir: nat, disk: Disk)
    requires Fitting(items, at) && at >= 2 && dir < 0x1_0000_0000
    decreases items
  {
    items != [] ==>
      (HeadFits(items, at);
       Holds(items[0], false, at, dir, disk) && HoldsAll(items[1..], at + Total(items[0], false), dir, disk))
  }

  /** The image a disk and a FAT make together with what the tree registers. */
  ghost function ImageOf(root: Item, fat: Table, disk: Disk): Image
    requires FitsAt(root, true, 2)
  {
    var reg := Reg(root, true, 2, 0, [], []);
    Image(SECTOR, 2, fat, disk, reg.chains, reg.views, reg.owner, reg.paths)
  }

  // ------------------------------------------------------------ hypotheses

  /** An item in its place in the image. */
  ghost predicate Here(item: Item, isRoot: bool, at: nat, up: nat, key: Key, path: seq<Key>, img: Image) {
    && FitsAt(item, isRoot, at) && up < 0x1_0000_0000 && img.root == 2 && img.size == SECTOR
    && (forall d | d in img.views :: d >= 2)
    && (isRoot ==> item.Folder? && at == 2 && path == [])
    && (!isRoot ==> at > 2 && InFolder(item, at, up, key, path, img))
    && Embedded(Reg(item, isRoot, at, up, key, path), at, at + Total(item, isRoot), img)
    && Holds(item, isRoot, at, up, img.disk)
  }

  /** Its entry in the folder above. */
  ghost predicate InFolder(item: Item, at: nat, up: nat, key: Key, path: seq<Key>, img: Image) {
    && ShortName11(item.name).Some? && at < 0x1_0000_0000 && SizeOf(item) < 0x1_0000_0000
    && key == KeyOf(item.name) && Listed(img, up, key) && EntryOf(img, up, key) == EntryFor(item, at)
    && up in img.paths && path == img.paths[up] + [key]
  }

  /** A run of children in their places. */
  ghost predicate HereAll(items: seq<Item>, at: nat, dir: nat, path: seq<Key>, img: Image) {
    && Fitting(items, at) && at > 2 && dir < 0x1_0000_0000 && img.root == 2 && img.size == SECTOR
    && (forall d | d in img.views :: d >= 2)
    && dir in img.paths && img.paths[dir] == path
    && (forall i: nat | i < |items| :: ListedAt(items, at, dir, i, img))
    && Embedded(RegAll(items, at, dir, path), at, at + TotalOf(items), img)
    && HoldsAll(items, at, dir, img.disk)
  }

  ghost predicate ListedAt(items: seq<Item>, at: nat, dir: nat, i: nat, img: Image)
    requires i < |items|
  {
    var c := StartOf(items, at, i);
    && ShortName11(items[i].name).Some? && c < 0x1_0000_0000 && SizeOf(items[i]) < 0x1_0000_0000
    && Listed(img, dir, KeyOf(items[i].name)) && EntryOf(img, dir, KeyOf(items[i].name)) == EntryFor(items[i], c)
  }

  /** The first child of a run, and the others. */
  lemma HereHead(items: seq<Item>, at: nat, dir: nat, path: seq<Key>, img: Image)
    requires HereAll(items, at, dir, path, img) && items != []
    ensures ShortName11(items[0].name).Some?
    ensures Here(items[0], false, at, dir, KeyOf(items[0].name), path + [KeyOf(items[0].name)], img)
    ensures HereAll(items[1..], at + Total(items[0], false), dir, path, img)
  {
    hide *;
    HereAllParts(items, at, dir, path, img);
    RegAllUnfolds(items, at, dir, path);
    var key, mid := KeyOf(items[0].name), at + Total(items[0], false);
    RegRanged(items[0], false, at, dir, key, path + [key]);
    RegAllRanged(items[1..], mid, dir, path);
    EmbeddedParts(Reg(items[0], false, at, dir, key, path + [key]), at, mid, RegAll(items[1..], mid, dir, path),
      mid + TotalOf(items[1..]), img);
    HoldsAllUnfolds(items, at, dir, img.disk);
    ListedFirst(items, at, dir, img);
    forall i: nat | i < |items[1..]| ensures ListedAt(items[1..], mid, dir, i, img) {
      ListedNext(items, at, dir, i, img);
    }
    AllHere(items[1..], mid, dir, path, img);
    ItemHere(items[0], at, dir, key, path + [key], img);
  }

  lemma HereAllParts(items: seq<Item>, at: nat, dir: nat, path: seq<Key>, img: Image)
    requires HereAll(items, at, dir, path, img)
    ensures Fitting(items, at) && at > 2 && dir < 0x1_0000_0000 && img.root == 2 && img.size == SECTOR
    ensures forall d | d in img.views :: d >= 2
    ensures dir in img.paths && img.paths[dir] == path
    ensures forall i: nat | i < |items| :: ListedAt(items, at, dir, i, img)
    ensures Embedded(RegAll(items, at, dir, path), at, at + TotalOf(items), img) && HoldsAll(items, at, dir, img.disk)
  {
    hide ListedAt, Embedded, HoldsAll, RegAll, Fitting, TotalOf;
  }

  lemma HoldsAllUnfolds(items: seq<Item>, at: nat, dir: nat, disk: Disk)
    requires Fitting(items, at) && at >= 2 && dir < 0x1_0000_0000 && items != [] && HoldsAll(items, at, dir, disk)
    ensures FitsAt(items[0], false, at) && Fitting(items[1..], at + Total(items[0], false))
    ensures Holds(items[0], false, at, dir, disk) && HoldsAll(items[1..], at + Total(items[0], false), dir, disk)
  {
    hide *;
    HeadFits(items, at);
    HoldsFirst(items, at, dir, disk);
  }

  lemma HoldsFirst(items: seq<Item>, at: nat, dir: nat, disk: Disk)
    requires Fitting(items, at) && at >= 2 && dir < 0x1_0000_0000 && items != [] && HoldsAll(items, at, dir, disk)
    requires FitsAt(items[0], false, at) && Fitting(items[1..], at + Total(items[0], false))
    ensures Holds(items[0], false, at, dir, disk) && HoldsAll(items[1..], at + Total(items[0], false), dir, disk)
  {
    hide Fitting, FitsAt, Holds, Total, TotalOf;
  }

  lemma ListedFirst(items: seq<Item>, at: nat, dir: nat, img: Image)
    requires items != [] && ListedAt(items, at, dir, 0, img)
    ensures ShortName11(items[0].name).Some? && at < 0x1_0000_0000 && SizeOf(items[0]) < 0x1_0000_0000
    ensures Listed(img, dir, KeyOf(items[0].name)) && EntryOf(img, dir, KeyOf(items[0].name)) == EntryFor(items[0], at)
  {
    hide ShortName11, KeyOf, EntryFor, Listed, EntryOf, SizeOf;
  }

  lemma ListedNext(items: seq<Item>, at: nat, dir: nat, i: nat, img: Image)
    requires i + 1 < |items| && ListedAt(items, at, dir, i + 1, img)
    ensures ListedAt(items[1..], at + Total(items[0], false), dir, i, img)
  {
    hide *;
    ListedParts(items, at, dir, i + 1, img);
    StartUnfolds(items, at, i + 1);
    assert items[1..][i] == items[i + 1];
    ListedAtIs(items[1..], at + Total(items[0], false), dir, i, img);
  }

  lemma ListedParts(items: seq<Item>, at: nat, dir: nat, i: nat, img: Image)
    requires i < |items| && ListedAt(items, at, dir, i, img)
    ensures ShortName11(items[i].name).Some? && StartOf(items, at, i) < 0x1_0000_0000
            && SizeOf(items[i]) < 0x1_0000_0000
    ensures Listed(img, dir, KeyOf(items[i].name))
            && EntryOf(img, dir, KeyOf(items[i].name)) == EntryFor(items[i], StartOf(items, at, i))
  {
    hide ShortName11, KeyOf, EntryFor, Listed, EntryOf, SizeOf, StartOf;
  }

  lemma ItemHere(item: Item, at: nat, dir: nat, key: Key, path: seq<Key>, img: Image)
    requires FitsAt(item, false, at) && dir < 0x1_0000_0000 && img.root == 2 && img.size == SECTOR && at > 2
    requires forall d | d in img.views :: d >= 2
    requires ShortName11(item.name).Some? && at < 0x1_0000_0000 && SizeOf(item) < 0x1_0000_0000
             && key == KeyOf(item.name)
    requires Listed(img, dir, key) && EntryOf(img, dir, key) == EntryFor(item, at) && dir in img.paths
             && path == img.paths[dir] + [key]
    requires Embedded(Reg(item, false, at, dir, key, path), at, at + Total(item, false), img)
             && Holds(item, false, at, dir, img.disk)
    ensures Here(item, false, at, dir, key, path, img)
  {
    hide ShortName11, KeyOf, EntryFor, Listed, EntryOf, SizeOf, Total, FitsAt, Embedded, Holds, Reg;
  }

  /** A folder's own slots, names and place, and its children in theirs. */
  lemma HereFolder(item: Item, isRoot: bool, at: nat, up: nat, key: Key, path: seq<Key>, img: Image)
    requires Here(item, isRoot, at, up, key, path, img) && item.Folder?
    ensures FitsAt(item, isRoot, at) && Fitting(item.children, at + Need(item, isRoot)) && at < 0x1_0000_0000
            && up < 0x1_0000_0000
    ensures HereAll(item.children, at + Need(item, isRoot), at, path, img)
    ensures at in img.chains && img.chains[at] == Clusters(item, isRoot, at)
            && SlotsOf(img, at) == Payload(item, isRoot, at, up)
    ensures at in img.views && img.views[at] == FolderView(item, isRoot, at, up)
    ensures at in img.paths && img.paths[at] == path
    ensures !isRoot ==> at in img.owner && img.owner[at] == Owner(up, key)
  {
    hide *;
    HereParts(item, isRoot, at, up, key, path, img);
    FolderFits(item, isRoot, at);
    RegUnfolds(item, isRoot, at, up, key, path);
    var mid := at + Need(item, isRoot);
    OwnRanged(item, isRoot, at, up, key, path);
    RegAllRanged(item.children, mid, at, path);
    EmbeddedParts(Own(item, isRoot, at, up, key, path), at, mid, RegAll(item.children, mid, at, path),
      mid + TotalOf(item.children), img);
    OwnEmbedded(item, isRoot, at, up, key, path, img);
    HoldsUnfolds(item, isRoot, at, up, img.disk);
    SlotsAre(item, isRoot, at, up, img);
    forall i: nat | i < |item.children| ensures ListedAt(item.children, mid, at, i, img) {
      ChildListed(item, isRoot, at, up, i, img);
    }
    AllHere(item.children, mid, at, path, img);
  }

  lemma HereParts(item: Item, isRoot: bool, at: nat, up: nat, key: Key, path: seq<Key>, img: Image)
    requires Here(item, isRoot, at, up, key, path, img)
    ensures FitsAt(item, isRoot, at) && up < 0x1_0000_0000 && img.root == 2 && img.size == SECTOR
    ensures forall d | d in img.views :: d >= 2
    ensures Embedded(Reg(item, isRoot, at, up, key, path), at, at + Total(item, isRoot), img)
    ensures Holds(item, isRoot, at, up, img.disk) && at >= 2
    ensures isRoot ==> item.Folder? && at == 2 && path == []
    ensures !isRoot ==> at > 2 && InFolder(item, at, up, key, path, img)
  {
    hide Reg, Embedded, Holds, InFolder, Total, Nameable;
  }

  lemma AllHere(items: seq<Item>, at: nat, dir: nat, path: seq<Key>, img: Image)
    requires Fitting(items, at) && at > 2 && dir < 0x1_0000_0000 && img.root == 2 && img.size == SECTOR
    requires forall d | d in img.views :: d >= 2
    requires dir in img.paths && img.paths[dir] == path
    requires forall i: nat | i < |items| :: ListedAt(items, at, dir, i, img)
    requires Embedded(RegAll(items, at, dir, path), at, at + TotalOf(items), img) && HoldsAll(items, at, dir, img.disk)
    ensures HereAll(items, at, dir, path, img)
  {
    hide ListedAt, Embedded, HoldsAll, RegAll, Fitting, TotalOf;
  }

  lemma HoldsUnfolds(item: Item, isRoot: bool, at: nat, up: nat, disk: Disk)
    requires FitsAt(item, isRoot, at) && up < 0x1_0000_0000 && item.Folder? && Holds(item, isRoot, at, up, disk)
    ensures Fitting(item.children, at + Need(item, isRoot)) && at >= 2 && at < 0x1_0000_0000
    ensures HoldsAll(item.children, at + Need(item, isRoot), at, disk)
    ensures DirSlots(disk, Clusters(item, isRoot, at)) == Payload(item, isRoot, at, up)
  {
    FolderFits(item, isRoot, at);
    hide FitsAt, Fitting, Payload, DirSlots, HoldsAll, Need;
  }

  lemma OwnEmbedded(item: Item, isRoot: bool, at: nat, up: nat, key: Key, path: seq<Key>, img: Image)
    requires FitsAt(item, isRoot, at) && up < 0x1_0000_0000 && Need(item, isRoot) > 0
    requires Embedded(Own(item, isRoot, at, up, key, path), at, at + Need(item, isRoot), img)
    ensures at in img.chains && img.chains[at] == Clusters(item, isRoot, at)
    ensures item.Folder? ==>
              at in img.views && img.views[at] == FolderView(item, isRoot, at, up) && at in img.paths
              && img.paths[at] == path
    ensures item.File? ==> at !in img.views
    ensures !isRoot ==> at in img.owner && img.owner[at] == Owner(up, key)
  {
    hide FitsAt, FolderView, Need;
    var own := Own(item, isRoot, at, up, key, path);
    assert at in own.chains;
  }

  lemma SlotsAre(item: Item, isRoot: bool, at: nat, up: nat, img: Image)
    requires at in img.chains && img.chains[at] == Clusters(item, isRoot, at)
    ensures SlotsOf(img, at) == DirSlots(img.disk, Clusters(item, isRoot, at))
  {
    hide DirSlots;
  }

  lemma ChildListed(item: Item, isRoot: bool, at: nat, up: nat, i: nat, img: Image)
    requires FitsAt(item, isRoot, at) && item.Folder? && up < 0x1_0000_0000 && i < |item.children|
    requires Fitting(item.children, at + Need(item, isRoot)) && at in img.views
             && img.views[at] == FolderView(item, isRoot, at, up)
    ensures ListedAt(item.children, at + Need(item, isRoot), at, i, img)
  {
    hide *;
    var items, c := item.children, at + Need(item, isRoot);
    ViewHas(items, c, FirstChildSlot(isRoot), i);
    FolderViewHas(item, isRoot, at, up, KeyOf(items[i].name));
    KeyListed(img, at, KeyOf(items[i].name), GroupFor(items[i], StartOf(items, c, i), FirstChildSlot(isRoot) + i));
    GroupEntry(items[i], StartOf(items, c, i), FirstChildSlot(isRoot) + i);
    ListedAtIs(items, c, at, i, img);
  }

  lemma ListedAtIs(items: seq<Item>, at: nat, dir: nat, i: nat, img: Image)
    requires i < |items|
    requires ShortName11(items[i].name).Some? && StartOf(items, at, i) < 0x1_0000_0000
             && SizeOf(items[i]) < 0x1_0000_0000
    requires Listed(img, dir, KeyOf(items[i].name))
             && EntryOf(img, dir, KeyOf(items[i].name)) == EntryFor(items[i], StartOf(items, at, i))
    ensures ListedAt(items, at, dir, i, img)
  {
    hide ShortName11, KeyOf, EntryFor, Listed, EntryOf, SizeOf;
  }

  lemma GroupEntry(item: Item, at: nat, base: nat)
    requires ShortName11(item.name).Some? && at < 0x1_0000_0000 && SizeOf(item) < 0x1_0000_0000
    ensures GroupFor(item, at, base).entry == EntryFor(item, at)
  {
    hide ShortName11, EntryFor, FormatShort;
  }

  lemma KeyListed(img: Image, d: nat, k: Key, g: Group)
    requires d in img.views && k in img.views[d] && img.views[d][k] == g
    ensures Listed(img, d, k) && EntryOf(img, d, k) == g.entry
  {
  }

  lemma FolderViewHas(item: Item, isRoot: bool, at: nat, up: nat, k: Key)
    requires FitsAt(item, isRoot, at) && item.Folder? && up < 0x1_0000_0000
             && Fitting(item.children, at + Need(item, isRoot))
    ensures var v := ViewOf(item.children, at + Need(item, isRoot), FirstChildSlot(isRoot));
            && (k in v ==> k in FolderView(item, isRoot, at, up) && FolderView(item, isRoot, at, up)[k] == v[k])
            && (k in FolderView(item, isRoot, at, up) && !IsDot(k) ==> k in v)
            && (k in FolderView(item, isRoot, at, up) && isRoot ==> k in v)
  {
    hide FitsAt, Fitting, ViewOf, DotEntry, DotDotEntry, Need;
  }

  // -------------------------------------------------------------- validity

  lemma FrontFresh(n: nat, at: nat, up: nat)
    requires at < 0x1_0000_0000 && up < 0x1_0000_0000 && n >= 2
    ensures FreshSlots(Front(n, false, at, up), at, up) && EmptyFrom(Front(n, false, at, up), 2)
  {
    DotEntryLive(DotDotEntry(up), [DOT, DOT]);
    hide DotEntry, DotDotEntry, IsDirectory, Front;
  }

  lemma FrontBlank(n: nat, at: nat, up: nat)
    requires at < 0x1_0000_0000 && up < 0x1_0000_0000
    ensures ValidDirectory(Front(n, true, at, up), map[]) && EmptyFrom(Front(n, true, at, up), 0)
  {
    hide Front;
  }

  lemma DotsAbsent(items: seq<Item>, at: nat, up: nat)
    requires NameableAll(items) && at < 0x1_0000_0000 && up < 0x1_0000_0000
    ensures AllAbsent(DotNames(at, up), items) && AllAbsent(map[], items)
  {
    hide NameableAll, ShortName11, KeyOf, Absent;
    forall i: nat | i < |items| ensures Absent(DotNames(at, up), items[i]) && Absent(map[], items[i]) {
      AllNamed(items, i);
      NotDots(items[i], at, up);
    }
  }

  lemma NotDots(item: Item, at: nat, up: nat)
    requires ShortName11(item.name).Some? && at < 0x1_0000_0000 && up < 0x1_0000_0000
    ensures Absent(DotNames(at, up), item) && Absent(map[], item)
  {
    hide *;
    KeyIs(item.name);
    ShortStart(item.name);
    SpecialNameReads([DOT]);
    SpecialNameReads([DOT, DOT]);
    DotRaws(at, up);
    DotsAreDots();
    AbsentIs(DotNames(at, up), item);
    AbsentIs(map[], item);
  }

  lemma DotsAreDots()
    ensures forall k :: IsDot(k) <==> k == [DOT] || k == [DOT, DOT]
  {
  }

  lemma AbsentIs(view: View, item: Item)
    requires ShortName11(item.name).Some? && KeyOf(item.name) !in view
             && ShortName11(item.name).value !in UsedNames(view)
    ensures Absent(view, item)
  {
    hide ShortName11, KeyOf, UsedNames;
  }

  lemma DotRaws(at: nat, up: nat)
    requires at < 0x1_0000_0000 && up < 0x1_0000_0000
    ensures DotNames(at, up).Keys == {[DOT], [DOT, DOT]}
    ensures UsedNames(DotNames(at, up)) <= {SpecialName([DOT]), SpecialName([DOT, DOT])}
    ensures UsedNames(map[]) == {}
  {
    hide SpecialName;
  }

  /** A folder's slots list exactly the dots and its children. */
  lemma FolderDirectory(item: Item, isRoot: bool, at: nat, up: nat)
    requires FitsAt(item, isRoot, at) && item.Folder? && up < 0x1_0000_0000
    requires Fitting(item.children, at + Need(item, isRoot)) && at < 0x1_0000_0000
    ensures ValidDirectory(Payload(item, isRoot, at, up), FolderView(item, isRoot, at, up))
  {
    hide *;
    var n, c := Need(item, isRoot) * PER_SECTOR, at + Need(item, isRoot);
    RoomFor(item, isRoot);
    FittingParts(item.children, c);
    DotsAbsent(item.children, at, up);
    PayloadIs(item, isRoot, at, up);
    if isRoot {
      FrontBlank(n, at, up);
      EntriesValid(Front(n, true, at, up), map[], item.children, c, 0);
    } else {
      FrontFresh(n, at, up);
      FreshDirectory(Front(n, false, at, up), at, up);
      EntriesValid(Front(n, false, at, up), DotNames(at, up), item.children, c, 2);
    }
  }

  lemma PayloadIs(item: Item, isRoot: bool, at: nat, up: nat)
    requires FitsAt(item, isRoot, at) && item.Folder? && up < 0x1_0000_0000
    requires Fitting(item.children, at + Need(item, isRoot)) && at < 0x1_0000_0000
    ensures FirstChildSlot(isRoot) == (if isRoot then 0 else 2)
            && FirstChildSlot(isRoot) + |item.children| <= Need(item, isRoot) * PER_SECTOR
    ensures Payload(item, isRoot, at, up) ==
            Overwrite(Front(Need(item, isRoot) * PER_SECTOR, isRoot, at, up), FirstChildSlot(isRoot),
              EntriesOf(item.children, at + Need(item, isRoot)))
    ensures FolderView(item, isRoot, at, up) ==
            (if isRoot then map[] else DotNames(at, up)) + ViewOf(item.children, at + Need(item, isRoot),
              FirstChildSlot(isRoot))
  {
    RoomFor(item, isRoot);
    hide FitsAt, Fitting, Front, EntriesOf, ViewOf, DotNames, Overwrite, Need;
  }

  /** Every name of directory `d` refers to what it should. */
  ghost predicate EntriesOk(img: Image, d: nat)
    requires d in img.views
  {
    forall k | k in img.views[d] :: EntryOk(img, d, k)
  }

  ghost predicate DirectoryOk(img: Image, d: nat)
    requires d in img.views
  {
    SlotsOk(img, d) && Placed(img, d) && EntriesOk(img, d)
  }

  /** All that is registered obeys the volume's rules. */
  ghost predicate Good(reg: Registry, img: Image) {
    && (forall d | d in reg.views :: d in img.views && DirectoryOk(img, d))
    && (forall h | h in reg.owner :: h in img.owner && OwnerOk(img, h))
  }

  lemma GoodJoin(a: Registry, b: Registry, img: Image)
    requires Good(a, img) && Good(b, img)
    ensures Good(Join(a, b), img)
  {
    hide DirectoryOk, OwnerOk;
  }

  /** The entry of an item in its place, and its chain's owner. */
  lemma EntryGood(item: Item, at: nat, up: nat, key: Key, path: seq<Key>, img: Image)
    requires Here(item, false, at, up, key, path, img)
    ensures Listed(img, up, key) && EntryOk(img, up, key)
    ensures Need(item, false) > 0 ==> at in img.owner && OwnerOk(img, at)
  {
    hide *;
    HereParts(item, false, at, up, key, path, img);
    InFolderParts(item, at, up, key, path, img);
    KeyIs(item.name);
    EntryIsLive(item, at);
    FileSize(item);
    if Need(item, false) > 0 {
      RegOwn(item, false, at, up, key, path, img);
      OwnEmbedded(item, false, at, up, key, path, img);
    }
    NoZero(img);
    EntryFields(item, at);
    EntryRules(img, up, key, item, at);
  }

  lemma NoZero(img: Image)
    requires forall d | d in img.views :: d >= 2
    ensures 0 !in img.views
  {
  }

  lemma EntryFields(item: Item, at: nat)
    requires ShortName11(item.name).Some? && at < 0x1_0000_0000 && SizeOf(item) < 0x1_0000_0000
    ensures var e := EntryFor(item, at);
            && FirstCluster(e) == (if Need(item, false) == 0 then 0 else at)
            && Size(e) == (if item.File? then |item.data| else 0) && (IsDirectory(e) <==> item.Folder?)
    ensures item.Folder? ==> Need(item, false) > 0
    ensures item.File? ==> |item.data| <= Need(item, false) * SECTOR && (|item.data| == 0 <==> Need(item, false) == 0)
  {
    EntryIsLive(item, at);
    hide ShortName11, EntryFor;
  }

  lemma EntryRules(img: Image, up: nat, key: Key, item: Item, at: nat)
    requires Listed(img, up, key) && !IsDot(key) && at > 2 && img.root == 2 && img.size == SECTOR && 0 !in img.views
    requires var e := EntryOf(img, up, key);
             && FirstCluster(e) == (if Need(item, false) == 0 then 0 else at)
             && Size(e) == (if item.File? then |item.data| else 0) && (IsDirectory(e) <==> item.Folder?)
    requires item.Folder? ==> Need(item, false) > 0
    requires item.File? ==> |item.data| <= Need(item, false) * SECTOR && (|item.data| == 0 <==> Need(item, false) == 0)
    requires Need(item, false) > 0 ==>
               && at in img.owner && img.owner[at] == Owner(up, key) && at in img.chains
                 && |img.chains[at]| == Need(item, false)
               && (item.Folder? ==> at in img.views) && (item.File? ==> at !in img.views)
    ensures EntryOk(img, up, key) && (Need(item, false) > 0 ==> OwnerOk(img, at))
  {
    hide Need, FirstCluster, Size, IsDirectory, Listed, EntryOf;
  }

  lemma InFolderParts(item: Item, at: nat, up: nat, key: Key, path: seq<Key>, img: Image)
    requires InFolder(item, at, up, key, path, img)
    ensures ShortName11(item.name).Some? && at < 0x1_0000_0000 && SizeOf(item) < 0x1_0000_0000
    ensures key == KeyOf(item.name) && Listed(img, up, key) && EntryOf(img, up, key) == EntryFor(item, at)
    ensures up in img.paths && path == img.paths[up] + [key]
  {
    hide ShortName11, KeyOf, EntryFor, Listed, EntryOf, SizeOf;
  }

  lemma RegOwn(item: Item, isRoot: bool, at: nat, up: nat, key: Key, path: seq<Key>, img: Image)
    requires FitsAt(item, isRoot, at) && up < 0x1_0000_0000
    requires Embedded(Reg(item, isRoot, at, up, key, path), at, at + Total(item, isRoot), img)
    ensures Embedded(Own(item, isRoot, at, up, key, path), at, at + Need(item, isRoot), img)
  {
    hide *;
    RegUnfolds(item, isRoot, at, up, key, path);
    OwnRanged(item, isRoot, at, up, key, path);
    if item.Folder? {
      FolderFits(item, isRoot, at);
      var mid := at + Need(item, isRoot);
      RegAllRanged(item.children, mid, at, path);
      EmbeddedParts(Own(item, isRoot, at, up, key, path), at, mid, RegAll(item.children, mid, at, path),
        mid + TotalOf(item.children), img);
    }
  }

  /** A folder in its place is a directory by the volume's rules, given its children's entries. */
  lemma FolderGood(item: Item, isRoot: bool, at: nat, up: nat, key: Key, path: seq<Key>, img: Image)
    requires Here(item, isRoot, at, up, key, path, img) && item.Folder?
    requires forall i: nat | i < |item.children| && ShortName11(item.children[i].name).Some? ::
               Listed(img, at, KeyOf(item.children[i].name)) && EntryOk(img, at, KeyOf(item.children[i].name))
    ensures at in img.views && DirectoryOk(img, at)
  {
    hide *;
    HereParts(item, isRoot, at, up, key, path, img);
    HereFolder(item, isRoot, at, up, key, path, img);
    FolderDirectory(item, isRoot, at, up);
    SlotsOkIs(img, at);
    if !isRoot { InFolderParts(item, at, up, key, path, img); }
    FolderDots(item, isRoot, at, up);
    PlacedIs(img, at, isRoot, up, key);
    NamesListed(img, at);
    forall k | k in img.views[at] ensures EntryOk(img, at, k) {
      FolderEntry(item, isRoot, at, up, k, img);
    }
    DirectoryIs(img, at);
  }

  lemma NamesListed(img: Image, d: nat)
    requires d in img.views
    ensures forall k | k in img.views[d] :: Listed(img, d, k)
  {
  }

  lemma SlotsOkIs(img: Image, d: nat)
    requires d in img.views && d in img.chains && ValidDirectory(SlotsOf(img, d), img.views[d])
    ensures SlotsOk(img, d)
  {
    hide ValidDirectory, SlotsOf;
  }

  lemma DirectoryIs(img: Image, d: nat)
    requires d in img.views && SlotsOk(img, d) && Placed(img, d) && forall k | k in img.views[d] :: EntryOk(img, d, k)
    ensures DirectoryOk(img, d)
  {
    hide SlotsOk, Placed, EntryOk;
  }

  lemma FolderDots(item: Item, isRoot: bool, at: nat, up: nat)
    requires FitsAt(item, isRoot, at) && item.Folder? && up < 0x1_0000_0000
    requires Fitting(item.children, at + Need(item, isRoot)) && at < 0x1_0000_0000
    ensures var v := FolderView(item, isRoot, at, up);
            if isRoot then [DOT] !in v && [DOT, DOT] !in v
            else DotAt(v, [DOT], 0) && DotAt(v, [DOT, DOT], 1)
                 && FirstCluster(v[[DOT]].entry) == at && FirstCluster(v[[DOT, DOT]].entry) == up
  {
    hide *;
    DotsAreDots();
    PayloadIs(item, isRoot, at, up);
    NoDotKeys(item.children, at + Need(item, isRoot), FirstChildSlot(isRoot), [DOT]);
    NoDotKeys(item.children, at + Need(item, isRoot), FirstChildSlot(isRoot), [DOT, DOT]);
    DotsThere(at, up, ViewOf(item.children, at + Need(item, isRoot), FirstChildSlot(isRoot)));
  }

  lemma DotsThere(at: nat, up: nat, v: View)
    requires at < 0x1_0000_0000 && up < 0x1_0000_0000 && [DOT] !in v && [DOT, DOT] !in v
    ensures var w := DotNames(at, up) + v;
            DotAt(w, [DOT], 0) && DotAt(w, [DOT, DOT], 1) && FirstCluster(w[[DOT]].entry) == at
              && FirstCluster(w[[DOT, DOT]].entry) == up
    ensures [DOT] !in map[] + v && [DOT, DOT] !in map[] + v
  {
    hide SpecialName, FirstCluster;
  }

  lemma NoDotKeys(items: seq<Item>, at: nat, base: nat, k: Key)
    requires Fitting(items, at) && IsDot(k)
    ensures k !in ViewOf(items, at, base)
  {
    ViewOnly(items, at, base, k);
    forall i: nat ensures !HasKey(items, i, k) {
      if i < |items| && ShortName11(items[i].name).Some? { KeyIs(items[i].name); }
    }
    hide *;
  }

  lemma PlacedIs(img: Image, d: nat, isRoot: bool, up: nat, key: Key)
    requires d in img.views && d in img.paths && (isRoot <==> d == img.root)
    requires isRoot ==> img.paths[d] == [] && [DOT] !in img.views[d] && [DOT, DOT] !in img.views[d]
    requires !isRoot ==>
               && d in img.owner && img.owner[d] == Owner(up, key) && up in img.paths
               && img.paths[d] == img.paths[up] + [key]
                         && DotAt(img.views[d], [DOT], 0) && DotAt(img.views[d], [DOT, DOT], 1)
                         && FirstCluster(img.views[d][[DOT]].entry) == d
                           && FirstCluster(img.views[d][[DOT, DOT]].entry) == up
    ensures Placed(img, d)
  {
    hide FirstCluster;
  }

  lemma FolderEntry(item: Item, isRoot: bool, at: nat, up: nat, k: Key, img: Image)
    requires FitsAt(item, isRoot, at) && item.Folder? && up < 0x1_0000_0000
    requires Fitting(item.children, at + Need(item, isRoot)) && at < 0x1_0000_0000
    requires at in img.views && img.views[at] == FolderView(item, isRoot, at, up) && k in img.views[at]
    requires forall i: nat | i < |item.children| && ShortName11(item.children[i].name).Some? ::
               Listed(img, at, KeyOf(item.children[i].name)) && EntryOk(img, at, KeyOf(item.children[i].name))
    ensures Listed(img, at, k) && EntryOk(img, at, k)
  {
    hide *;
    KeyListed(img, at, k, img.views[at][k]);
    FolderViewHas(item, isRoot, at, up, k);
    DotEntryOk(img, at, k);
    if !IsDot(k) {
      ViewOnly(item.children, at + Need(item, isRoot), FirstChildSlot(isRoot), k);
      var i: nat :| HasKey(item.children, i, k);
      HasKeyIs(item.children, i, k);
    }
  }

  lemma DotEntryOk(img: Image, d: nat, k: Key)
    requires Listed(img, d, k)
    ensures IsDot(k) ==> EntryOk(img, d, k)
  {
  }

  /** Everything an item in its place registers obeys the rules, and so does its own entry. */
  lemma {:induction false} ItemGood(item: Item, isRoot: bool, at: nat, up: nat, key: Key, path: seq<Key>, img: Image)
    requires Here(item, isRoot, at, up, key, path, img)
    ensures FitsAt(item, isRoot, at) && up < 0x1_0000_0000 && Good(Reg(item, isRoot, at, up, key, path), img)
    ensures !isRoot ==> Listed(img, up, key) && EntryOk(img, up, key)
    decreases item
  {
    hide *;
    HereParts(item, isRoot, at, up, key, path, img);
    RegUnfolds(item, isRoot, at, up, key, path);
    if !isRoot { EntryGood(item, at, up, key, path, img); }
    if item.Folder? {
      HereFolder(item, isRoot, at, up, key, path, img);
      AllGood(item.children, at + Need(item, isRoot), at, path, img);
      FolderGood(item, isRoot, at, up, key, path, img);
      OwnGood(item, isRoot, at, up, key, path, img);
      GoodJoin(Own(item, isRoot, at, up, key, path), RegAll(item.children, at + Need(item, isRoot), at, path), img);
    } else {
      OwnGood(item, isRoot, at, up, key, path, img);
    }
  }

  lemma OwnGood(item: Item, isRoot: bool, at: nat, up: nat, key: Key, path: seq<Key>, img: Image)
    requires FitsAt(item, isRoot, at) && up < 0x1_0000_0000 && (isRoot ==> item.Folder?)
    requires item.Folder? ==> at in img.views && DirectoryOk(img, at)
    requires !isRoot && Need(item, isRoot) > 0 ==> at in img.owner && OwnerOk(img, at)
    ensures Good(Own(item, isRoot, at, up, key, path), img)
  {
    hide FitsAt, DirectoryOk, OwnerOk, FolderView, Need;
  }

  lemma {:induction false} AllGood(items: seq<Item>, at: nat, dir: nat, path: seq<Key>, img: Image)
    requires HereAll(items, at, dir, path, img)
    ensures Fitting(items, at) && at >= 2 && dir < 0x1_0000_0000 && Good(RegAll(items, at, dir, path), img)
    ensures forall i: nat | i < |items| && ShortName11(items[i].name).Some? ::
              Listed(img, dir, KeyOf(items[i].name)) && EntryOk(img, dir, KeyOf(items[i].name))
    decreases items
  {
    hide *;
    HereAllParts(items, at, dir, path, img);
    RegAllUnfolds(items, at, dir, path);
    if items == [] {
      NothingGood(img);
    } else {
      HereHead(items, at, dir, path, img);
      var key, mid := KeyOf(items[0].name), at + Total(items[0], false);
      ItemGood(items[0], false, at, dir, key, path + [key], img);
      AllGood(items[1..], mid, dir, path, img);
      GoodJoin(Reg(items[0], false, at, dir, key, path + [key]), RegAll(items[1..], mid, dir, path), img);
      forall i: nat | i < |items| && ShortName11(items[i].name).Some?
        ensures Listed(img, dir, KeyOf(items[i].name)) && EntryOk(img, dir, KeyOf(items[i].name))
      {
        assert i > 0 ==> items[i] == items[1..][i - 1];
      }
    }
  }

  lemma NothingGood(img: Image)
    ensures Good(Nothing, img)
  {
  }

  // ---------------------------------------------------------- the whole image

  /** FAT and disk carry the laid-out tree. */
  ghost predicate Carries(root: Item, fat: Table, disk: Disk) {
    && root.Folder? && FitsAt(root, true, 2) && |fat| <= MAX_CLUSTERS && |disk| == |fat| && ValidDisk(disk, SECTOR)
    && Holds(root, true, 2, 0, disk)
    && (var chains := Reg(root, true, 2, 0, [], []).chains; forall h | h in chains :: IsChain(fat, chains[h]))
  }

  lemma CarriesParts(root: Item, fat: Table, disk: Disk)
    requires Carries(root, fat, disk)
    ensures root.Folder? && FitsAt(root, true, 2) && |fat| <= MAX_CLUSTERS && |disk| == |fat| && ValidDisk(disk, SECTOR)
    ensures Holds(root, true, 2, 0, disk)
    ensures forall h | h in Reg(root, true, 2, 0, [], []).chains ::
            IsChain(fat, Reg(root, true, 2, 0, [], []).chains[h])
  {
    hide Holds, Reg, FitsAt, ValidDisk, IsChain;
  }

  /** Nothing is missing: the root is in its place. */
  lemma RootHere(root: Item, fat: Table, disk: Disk)
    requires Carries(root, fat, disk)
    ensures Here(root, true, 2, 0, [], [], ImageOf(root, fat, disk))
  {
    hide *;
    CarriesParts(root, fat, disk);
    RegRanged(root, true, 2, 0, [], []);
    var reg := Reg(root, true, 2, 0, [], []);
    RootImage(root, fat, disk);
    ViewsIn(reg, 2, 2 + Total(root, true));
    RootEmbedded(reg, 2, 2 + Total(root, true), ImageOf(root, fat, disk));
    RootIsHere(root, ImageOf(root, fat, disk));
  }

  lemma RootImage(root: Item, fat: Table, disk: Disk)
    requires FitsAt(root, true, 2)
    ensures var img, reg := ImageOf(root, fat, disk), Reg(root, true, 2, 0, [], []);
            && img.size == SECTOR && img.root == 2 && img.fat == fat && img.disk == disk
            && img.chains == reg.chains && img.views == reg.views && img.owner == reg.owner && img.paths == reg.paths
  {
    hide FitsAt, Reg;
  }

  lemma ViewsIn(reg: Registry, lo: nat, hi: nat)
    requires Ranged(reg, lo, hi)
    ensures forall d | d in reg.views :: lo <= d
  {
    forall d | d in reg.views ensures lo <= d {
      assert d in reg.chains;
      assert ChainIn(reg, lo, hi, d);
    }
  }

  lemma RootEmbedded(reg: Registry, lo: nat, hi: nat, img: Image)
    requires img.chains == reg.chains && img.views == reg.views && img.owner == reg.owner && img.paths == reg.paths
    ensures Embedded(reg, lo, hi, img)
  {
  }

  lemma RootIsHere(root: Item, img: Image)
    requires FitsAt(root, true, 2) && root.Folder? && img.root == 2 && img.size == SECTOR
             && forall d | d in img.views :: d >= 2
    requires Embedded(Reg(root, true, 2, 0, [], []), 2, 2 + Total(root, true), img) && Holds(root, true, 2, 0, img.disk)
    ensures Here(root, true, 2, 0, [], [], img)
  {
    hide FitsAt, Reg, Embedded, Holds, Total;
  }

  /** What the builder's tree lays out is a valid volume: chains, directories, dots and owners. */
  lemma BuiltValid(root: Item, fat: Table, disk: Disk)
    requires Carries(root, fat, disk)
    ensures ValidImage(ImageOf(root, fat, disk))
  {
    hide *;
    CarriesParts(root, fat, disk);
    var img, reg := ImageOf(root, fat, disk), Reg(root, true, 2, 0, [], []);
    RootImage(root, fat, disk);
    RootHere(root, fat, disk);
    HereFolder(root, true, 2, 0, [], [], img);
    ItemGood(root, true, 2, 0, [], [], img);
    RegRanged(root, true, 2, 0, [], []);
    BuiltStorage(reg, 2, 2 + Total(root, true), img);
    BuiltRegistered(reg, 2, 2 + Total(root, true), img);
    GoodLinks(reg, img);
    LinkedFrom(img);
    BuiltParts(img);
  }

  lemma BuiltStorage(reg: Registry, lo: nat, hi: nat, img: Image)
    requires Ranged(reg, lo, hi) && img.chains == reg.chains && img.size == SECTOR && |img.fat| <= MAX_CLUSTERS
    requires |img.disk| == |img.fat| && ValidDisk(img.disk, SECTOR) && forall h | h in reg.chains ::
             IsChain(img.fat, reg.chains[h])
    ensures Storage(img)
  {
    ChainsApart(reg, lo, hi);
    hide IsChain, ValidDisk, Apart;
    forall h | h in reg.chains ensures ChainAt(img.fat, img.chains, h) {
      assert ChainIn(reg, lo, hi, h);
    }
  }

  lemma BuiltRegistered(reg: Registry, lo: nat, hi: nat, img: Image)
    requires Ranged(reg, lo, hi) && lo >= 2 && img.root in img.views && img.root == lo
    requires img.chains == reg.chains && img.views == reg.views && img.owner == reg.owner && img.paths == reg.paths
    requires reg.chains.Keys == reg.owner.Keys + {lo} && lo !in reg.owner
    ensures Registered(img)
  {
    forall h | h in reg.chains ensures h >= lo {
      assert ChainIn(reg, lo, hi, h);
    }
  }

  lemma GoodLinks(reg: Registry, img: Image)
    requires Good(reg, img) && img.views == reg.views && img.owner == reg.owner
    ensures forall d | d in img.views :: Placed(img, d) && SlotsOk(img, d)
    ensures forall h | h in img.owner :: OwnerOk(img, h)
    ensures forall d, k | Listed(img, d, k) :: EntryOk(img, d, k)
  {
    hide Placed, SlotsOk, OwnerOk, EntryOk;
    forall d, k | Listed(img, d, k) ensures EntryOk(img, d, k) {
      assert DirectoryOk(img, d);
    }
  }

  lemma BuiltParts(img: Image)
    requires Storage(img) && Linked(img) && forall d | d in img.views :: SlotsOk(img, d)
    ensures ValidImage(img)
  {
    hide Storage, Linked, SlotsOk;
  }

  // --------------------------------------------------------- looking things up

  /** The child a key names. */
  function IndexOf(items: seq<Item>, k: Key): (i: Option<nat>)
    ensures i.Some? ==> i.value < |items| && ShortName11(items[i.value].name).Some? && KeyOf(items[i.value].name) == k
    ensures i.None? ==> forall j: nat | j < |items| && ShortName11(items[j].name).Some? :: KeyOf(items[j].name) != k
  {
    if items == [] then None
    else if ShortName11(items[0].name).Some? && KeyOf(items[0].name) == k then Some(0)
    else match IndexOf(items[1..], k)
      case None => None
      case Some(i) => Some(i + 1)
  }

  /** What a path names in the source tree; folders are told by the cluster they are given. */
  function Find(item: Item, isRoot: bool, at: nat, path: seq<Key>): Found
    requires item.Folder?
    decreases |path|, 1
  {
    if path == [] then At(DirNode(at))
    else match IndexOf(item.children, path[0])
      case None => Missing
      case Some(i) => FindIn(item.children[i], StartOf(item.children, at + Need(item, isRoot), i), path)
  }

  /** The item itself at the end of the path, or what lies below it. */
  function FindIn(child: Item, at: nat, path: seq<Key>): Found
    requires path != []
    decreases |path|, 0
  {
    if |path| == 1 then At(NodeFor(child, at))
    else if child.File? then NotDir
    else Find(child, false, at, path[1..])
  }

  function NodeFor(item: Item, at: nat): Node {
    match item
    case File(_, data) => FileNode(data)
    case Folder(_, _) => DirNode(at)
  }

  /** The entry of an item in its place stands for the item. */
  lemma NodeIs(item: Item, at: nat, up: nat, key: Key, path: seq<Key>, img: Image)
    requires Here(item, false, at, up, key, path, img)
    ensures Listed(img, up, key) && NodeOf(img, EntryOf(img, up, key)) == NodeFor(item, at)
  {
    hide *;
    HereParts(item, false, at, up, key, path, img);
    InFolderParts(item, at, up, key, path, img);
    EntryFields(item, at);
    if item.File? && Need(item, false) > 0 {
      RegOwn(item, false, at, up, key, path, img);
      OwnEmbedded(item, false, at, up, key, path, img);
      HoldsFile(item, at, up, img.disk);
      BytesAre(item, at, img);
    }
    NodeByFields(item, at, img, EntryFor(item, at));
  }

  lemma HoldsFile(item: Item, at: nat, up: nat, disk: Disk)
    requires FitsAt(item, false, at) && up < 0x1_0000_0000 && item.File? && Holds(item, false, at, up, disk)
    ensures var bytes := ChainBytes(disk, Clusters(item, false, at));
            |item.data| <= |bytes|
            && bytes[..|item.data|] == item.data
  {
    hide FitsAt, ChainBytes, Clusters;
  }

  lemma BytesAre(item: Item, at: nat, img: Image)
    requires at in img.chains && img.chains[at] == Clusters(item, false, at)
    ensures BytesOf(img, at) == ChainBytes(img.disk, Clusters(item, false, at))
  {
    hide ChainBytes, Clusters;
  }

  lemma NodeByFields(item: Item, at: nat, img: Image, e: Slot)
    requires FirstCluster(e) == (if Need(item, false) == 0 then 0 else at)
    requires Size(e) == (if item.File? then |item.data| else 0) && (IsDirectory(e) <==> item.Folder?)
    requires item.Folder? ==> Need(item, false) > 0
    requires item.File? ==> (|item.data| == 0 <==> Need(item, false) == 0)
    requires item.File? && Need(item, false) > 0 ==>
               at in img.chains && |item.data| <= |BytesOf(img, at)| && BytesOf(img, at)[..|item.data|] == item.data
    ensures NodeOf(img, e) == NodeFor(item, at)
  {
    hide FirstCluster, Size, IsDirectory, BytesOf, Need;
    assert item.File? && |item.data| == 0 ==> item.data == [];
  }

  /** Child `i` of a run in its place is in its own. */
  lemma {:induction false} HereChild(items: seq<Item>, at: nat, dir: nat, path: seq<Key>, img: Image, i: nat)
    requires HereAll(items, at, dir, path, img) && i < |items|
    ensures ShortName11(items[i].name).Some?
    ensures Here(items[i], false, StartOf(items, at, i), dir, KeyOf(items[i].name), path + [KeyOf(items[i].name)], img)
    decreases i
  {
    hide *;
    HereHead(items, at, dir, path, img);
    StartUnfolds(items, at, i);
    if i > 0 {
      HereChild(items[1..], at + Total(items[0], false), dir, path, img, i - 1);
      assert items[1..][i - 1] == items[i];
    }
  }

  /** The volume lists exactly the tree: following a path in the one or in the other is the same. */
  lemma {:induction false} FindMeans(item: Item, isRoot: bool, at: nat, up: nat, key: Key, place: seq<Key>, img: Image,
                                     path: seq<Key>)
    requires Here(item, isRoot, at, up, key, place, img) && item.Folder? && !HasDots(path)
    ensures Lookup(Tree(img), at, path) == Find(item, isRoot, at, path)
    decreases |path|
  {
    hide *;
    FindUnfolds(item, isRoot, at, path);
    if path == [] {
      LookupHere(Tree(img), at);
    } else {
      HereFolder(item, isRoot, at, up, key, place, img);
      var items, c := item.children, at + Need(item, isRoot);
      DotsInPath(path);
      LookupNext(img, at, path);
      FolderKeys(item, isRoot, at, up, path[0], img);
      var i := IndexOf(items, path[0]);
      if i.Some? {
        HereChild(items, c, at, place, img, i.value);
        NodeIs(items[i.value], StartOf(items, c, i.value), at, path[0], place + [path[0]], img);
        NodeKinds(items[i.value], StartOf(items, c, i.value));
        FindInUnfolds(items[i.value], StartOf(items, c, i.value), path);
        if |path| > 1 && items[i.value].Folder? {
          FindMeans(items[i.value], false, StartOf(items, c, i.value), at, path[0], place + [path[0]], img, path[1..]);
        }
      }
    }
  }

  predicate HasDots(path: seq<Key>) {
    exists i | 0 <= i < |path| :: IsDot(path[i])
  }

  lemma DotsInPath(path: seq<Key>)
    requires path != [] && !HasDots(path)
    ensures !IsDot(path[0]) && !HasDots(path[1..])
  {
    hide IsDot;
    assert forall i | 0 <= i < |path[1..]| :: path[1..][i] == path[i + 1];
  }

  lemma LookupHere(tree: FileSystem, d: nat)
    ensures Lookup(tree, d, []) == At(DirNode(d))
  {
  }

  lemma NodeKinds(item: Item, at: nat)
    ensures item.File? ==> NodeFor(item, at) == FileNode(item.data)
    ensures item.Folder? ==> NodeFor(item, at) == DirNode(at)
  {
  }

  lemma FindUnfolds(item: Item, isRoot: bool, at: nat, path: seq<Key>)
    requires item.Folder?
    ensures path == [] ==> Find(item, isRoot, at, path) == At(DirNode(at))
    ensures path != [] && IndexOf(item.children, path[0]).None? ==> Find(item, isRoot, at, path) == Missing
    ensures path != [] && IndexOf(item.children, path[0]).Some? ==>
              var i := IndexOf(item.children, path[0]).value;
              Find(item, isRoot, at, path) == FindIn(item.children[i],
                StartOf(item.children, at + Need(item, isRoot), i), path)
  {
    hide IndexOf, StartOf, Need, FindIn;
  }

  lemma FindInUnfolds(child: Item, at: nat, path: seq<Key>)
    requires path != []
    ensures |path| == 1 ==> FindIn(child, at, path) == At(NodeFor(child, at))
    ensures |path| > 1 && child.File? ==> FindIn(child, at, path) == NotDir
    ensures |path| > 1 && child.Folder? ==> FindIn(child, at, path) == Find(child, false, at, path[1..])
  {
    hide NodeFor, Find;
  }

  lemma LookupNext(img: Image, d: nat, path: seq<Key>)
    requires d in img.views && path != [] && !IsDot(path[0])
    ensures !Listed(img, d, path[0]) ==> Lookup(Tree(img), d, path) == Missing
    ensures Listed(img, d, path[0]) ==>
              var node := NodeOf(img, EntryOf(img, d, path[0]));
              Lookup(Tree(img), d, path) ==
              if |path| == 1 then At(node)
              else match node case DirNode(e) => Lookup(Tree(img), e, path[1..]) case FileNode(_) => NotDir
  {
    hide NodeOf, IsDot;
  }

  lemma FolderKeys(item: Item, isRoot: bool, at: nat, up: nat, k: Key, img: Image)
    requires FitsAt(item, isRoot, at) && item.Folder? && up < 0x1_0000_0000 && !IsDot(k)
    requires Fitting(item.children, at + Need(item, isRoot)) && at < 0x1_0000_0000
    requires at in img.views && img.views[at] == FolderView(item, isRoot, at, up)
    ensures Listed(img, at, k) <==> IndexOf(item.children, k).Some?
  {
    hide *;
    var items, c := item.children, at + Need(item, isRoot);
    FolderViewHas(item, isRoot, at, up, k);
    ListedIs(img, at, k);
    ViewOnly(items, c, FirstChildSlot(isRoot), k);
    if Listed(img, at, k) {
      var i: nat :| HasKey(items, i, k);
      HasKeyIs(items, i, k);
    }
    var i := IndexOf(items, k);
    if i.Some? {
      ViewHas(items, c, FirstChildSlot(isRoot), i.value);
    }
  }

  lemma ListedIs(img: Image, d: nat, k: Key)
    ensures Listed(img, d, k) <==> d in img.views && k in img.views[d]
  {
  }
}
