/** Three small volumes, built and mounted: the inputs at which the kernel's file system loses
    clusters, or a directory. */
module BuiltExamples {
  import opened Bytes
  import opened FatSlots
  import opened FatTables
  import opened FatStore
  import opened FatImage
  import opened FatVolume
  import opened FatNaming
  import opened FatRename
  import opened FatRuns
  import opened FatLeaks
  import opened BuilderNames
  import opened BuilderTree
  import opened BuilderRegistry
  import opened BuilderImage
  import opened BuiltVolumes

  // ------------------------------------------------------------------- names

  /** A single capital letter is a short name, listed as it is. */
  lemma OneLetter(c: Byte)
    requires 0x41 <= c <= 0x5A
    ensures ShortName11([c]) == Some([c] + Spaces(10)) && KeyOf([c]) == [c]
  {
    assert Fold([c]) == [c] && [c][1..] == [];
    assert Dots([]) == 0 && FirstDot([]) == -1;
    assert Pad([c], 8) + Pad([], 3) == [c] + Spaces(10);
    hide Dots, FirstDot;
    NameKept([c]);
  }

  /** Empty files named by the letters from `c` on. */
  function Letters(c: Byte, n: nat): (items: seq<Item>)
    requires c + n <= 0x5B
    decreases n
    ensures |items| == n && forall i: nat | i < n :: items[i] == File([c + i], [])
  {
    if n == 0 then [] else [File([c], [])] + Letters(c + 1, n - 1)
  }

  lemma {:induction false} LettersAre(c: Byte, n: nat)
    requires 0x41 <= c && c + n <= 0x5B
    ensures NameableAll(Letters(c, n)) && TotalOf(Letters(c, n)) == 0
    decreases n
  {
    hide ShortName11;
    var items := Letters(c, n);
    if n > 0 {
      LettersAre(c + 1, n - 1);
      assert items[1..] == Letters(c + 1, n - 1);
      OneLetter(c);
      forall i | 1 <= i < n ensures ShortName11(items[i].name) != ShortName11(items[0].name) {
        OneLetter(c + i);
        assert ([c + i] + Spaces(10))[0] != ([c] + Spaces(10))[0];
      }
    }
  }

  // ------------------------------------------------------------ what is mounted

  /** The root directory of a mounted tree. */
  lemma RootFacts(root: Item, img: Image)
    requires Carries(root, img.fat, img.disk)
    requires FitsAt(root, true, 2) && img == ImageOf(root, img.fat, img.disk)
    ensures root.Folder? && Here(root, true, 2, 0, [], [], img) && img.root == 2 && 2 in img.views && 2 in img.chains
    ensures img.chains[2] == Clusters(root, true, 2) && forall h | h in img.chains :: IsChain(img.fat, img.chains[h])
    ensures Fitting(root.children, 2 + Need(root, true)) && SlotsOf(img, 2) == Payload(root, true, 2, 0)
    ensures img.views[2] == FolderView(root, true, 2, 0)
    ensures HereAll(root.children, 2 + Need(root, true), 2, [], img)
  {
    hide *;
    CarriesParts(root, img.fat, img.disk);
    RootHere(root, img.fat, img.disk);
    HereFolder(root, true, 2, 0, [], [], img);
    RootImage(root, img.fat, img.disk);
  }

  /** With one cluster behind those in use, exactly that one is free. */
  lemma OneFree(fat: Table, used: nat)
    requires |fat| == used + 1 && RestFree(fat, used) && used >= 2
    requires forall c: nat | 2 <= c < used :: IsChain(fat, [c])
    ensures |FreeClusters(fat)| == 1
  {
    forall c: nat | 2 <= c < used ensures !IsFree(fat, c) {
      assert LinkAt(fat, [c], 0);
    }
    assert fat[used] == 0;
    assert FreeClusters(fat) == {used};
  }

  lemma BuildableIs(root: Item, total: nat, used: nat)
    requires root.Folder? && NameableAll(root.children) && Total(root, true) == used && used <= 2 && total == 35 + used
    ensures Buildable(root, total) && ClustersIn(total) == 2 + used + 1
  {
    hide NameableAll, Total;
  }

  // ---------------------------------------------------------------- a full root

  /** Sixteen empty files fill the root directory's cluster. */
  function FullTree(): Item { Folder([], Letters(0x42, 16)) }

  lemma FullTreeIs()
    ensures FullTree().Folder? && NameableAll(FullTree().children) && Total(FullTree(), true) == 1
            && Need(FullTree(), true) == 1
  {
    LettersAre(0x42, 16);
    hide Letters, NameableAll;
  }

  lemma {:induction false} EntryNames(items: seq<Item>, at: nat)
    requires Fitting(items, at)
    ensures forall i: nat | i < |items| ::
              ShortName11(items[i].name).Some? && RawName(EntriesOf(items, at)[i]) == ShortName11(items[i].name).value
    decreases |items|
  {
    hide ShortName11, RawName, NameableAll, Total;
    if items != [] {
      FittingHead(items, at);
      EntryNames(items[1..], at + Total(items[0], false));
    }
  }

  lemma FullPayload(root: Item, p: nat)
    requires root.Folder? && FitsAt(root, true, 2) && Fitting(root.children, 2 + Need(root, true))
    requires |root.children| == Need(root, true) * PER_SECTOR && p < |root.children|
    ensures |Payload(root, true, 2, 0)| == |root.children|
    ensures Payload(root, true, 2, 0)[p] == EntriesOf(root.children, 2 + Need(root, true))[p]
  {
    hide FitsAt, Fitting, EntriesOf, BuilderImage.Front, Need;
  }

  /** No slot of it is free. */
  lemma FullSlots(needed: nat)
    requires FitsAt(FullTree(), true, 2) && Fitting(FullTree().children, 3) && needed > 0
             && Need(FullTree(), true) == 1
    ensures !HasRun(Payload(FullTree(), true, 2, 0), needed)
  {
    LetterNames();
    hide *;
    var slots := Payload(FullTree(), true, 2, 0);
    SixteenSlots();
    FullPayload(FullTree(), 0);
    forall p: nat | p < |slots| ensures !IsFreeSlot(slots[p]) {
      FullPayload(FullTree(), p);
      FirstByte(FullTree().children, p);
      NotFree(slots[p], 0x42 + p);
    }
    NoneFree(slots, needed);
  }

  lemma SixteenSlots()
    ensures PER_SECTOR == 16
  {
  }

  lemma NotFree(s: Slot, c: int)
    requires s[0] == c && 0x42 <= c < 0x5B
    ensures !IsFreeSlot(s)
  {
  }

  lemma NoneFree(slots: seq<Slot>, needed: nat)
    requires needed > 0 && forall p: nat | p < |slots| :: !IsFreeSlot(slots[p])
    ensures !HasRun(slots, needed)
  {
    hide IsFreeSlot;
    forall a: nat ensures !RunAt(slots, a, needed) {
      if a < |slots| { assert !IsFreeSlot(slots[a]); }
    }
  }

  lemma FirstByte(items: seq<Item>, p: nat)
    requires Fitting(items, 3) && p < |items| == 16 && items[p].name == [0x42 + p]
    ensures EntriesOf(items, 3)[p][0] == 0x42 + p
  {
    EntryNames(items, 3);
    OneLetter(0x42 + p);
    hide Fitting, ShortName11, EntriesOf;
    assert EntriesOf(items, 3)[p][0] == RawName(EntriesOf(items, 3)[p])[0];
  }

  lemma FullNames(img: Image)
    requires FitsAt(FullTree(), true, 2) && Fitting(FullTree().children, 3) && Need(FullTree(), true) == 1
    requires 2 in img.views && img.views[2] == FolderView(FullTree(), true, 2, 0)
    ensures !Listed(img, 2, [0x41])
  {
    var items := FullTree().children;
    LetterNames();
    hide *;
    FullFolder();
    ListedIs(img, 2, [0x41]);
    FolderViewHas(FullTree(), true, 2, 0, [0x41]);
    ViewOnly(items, 3, 0, [0x41]);
    NoLetterA(items);
  }

  lemma FullFolder()
    ensures FullTree().Folder? && FirstChildSlot(true) == 0
  {
    hide Letters;
  }

  lemma LetterNames()
    ensures FullTree().Folder? && forall i: nat | i < |FullTree().children| :: FullTree().children[i].name == [0x42 + i]
    ensures |FullTree().children| == 16
  {
  }

  lemma NoLetterA(items: seq<Item>)
    requires |items| == 16 && forall i: nat | i < |items| :: items[i].name == [0x42 + i]
    ensures !exists i: nat :: HasKey(items, i, [0x41])
  {
    hide KeyOf, ShortName11;
    forall i: nat ensures !HasKey(items, i, [0x41]) {
      if i < |items| { OneLetter(0x42 + i); }
    }
  }

  lemma ListedIs(img: Image, d: nat, k: Key)
    ensures Listed(img, d, k) <==> d in img.views && k in img.views[d]
  {
  }

  /** The root directory is full and one cluster is free: a new file or directory "/a" fails and
      takes that cluster with it. */
  method FullRoot(volume: seq<Byte>) returns (vol: Volume)
    requires |volume| == 11
    ensures vol.Valid() && |FreeClusters(vol.Now().fat)| == 1
    ensures var op := Make([0x2F, 0x61]);
            ResultOf(vol.Now(), op) == NoSpace && FreeAfter(vol.Now(), op) == 0
    ensures forall byte ::
              var op := Write([0x2F, 0x61], [byte], false);
              ResultOf(vol.Now(), op) == NoSpace && FreeAfter(vol.Now(), op) == 0
  {
    hide *;
    FullTreeIs();
    Limit();
    BuildableIs(FullTree(), 36, 1);
    var mounted := BuildAndMount(FullTree(), 36, volume);
    vol := mounted;
    ghost var img := vol.Now();
    vol.Parts();
    RootFacts(FullTree(), img);
    ClustersFrom(FullTree(), true, 2);
    OneFree(img.fat, 3);
    NeedsSlot(img, 2, [0x61]);
    FullSlots(SlotsNeeded(img, 2, [0x61]));
    FullNames(img);
    LostDirectory(img);
    forall byte
      ensures var op := Write([0x2F, 0x61], [byte], false);
              ResultOf(vol.Now(), op) == NoSpace && FreeAfter(vol.Now(), op) == 0
    {
      LostData(img, byte);
    }
  }

  lemma ClustersFrom(item: Item, isRoot: bool, at: nat)
    ensures Need(item, isRoot) == 1 ==> Clusters(item, isRoot, at) == [at]
  {
    hide Need;
  }

  lemma NeedsSlot(img: Image, d: nat, name: Str)
    requires d in img.views
    ensures SlotsNeeded(img, d, name) > 0
  {
    hide PiecesFor;
  }

  // ------------------------------------------------------------- one name, "A"

  /** The root's only child, in the cluster behind the root's. */
  lemma ChildFacts(root: Item, item: Item, img: Image)
    requires root.Folder? && root.children == [item] && item.name == [0x41] && Need(item, false) == 1
             && Need(root, true) == 1
    requires HereAll(root.children, 3, 2, [], img)
    ensures Listed(img, 2, [0x41]) && FirstCluster(EntryOf(img, 2, [0x41])) == 3
    ensures Attributes(EntryOf(img, 2, [0x41])) == if item.Folder? then ATTR_DIRECTORY else ATTR_ARCHIVE
    ensures HeldBy(img, 2, [0x41]) == [3] && 3 in img.chains && img.chains[3] == [3]
    ensures Here(item, false, 3, 2, [0x41], [] + [[0x41]], img)
  {
    OneLetter(0x41);
    hide *;
    var items := root.children;
    assert items[0] == item;
    HereHead(items, 3, 2, [], img);
    HereAllParts(items, 3, 2, [], img);
    ListedFirst(items, 3, 2, img);
    FirstIs(item, 3);
    HereParts(item, false, 3, 2, [0x41], [] + [[0x41]], img);
    if item.Folder? {
      HereFolder(item, false, 3, 2, [0x41], [] + [[0x41]], img);
    } else {
      RegUnfolds(item, false, 3, 2, [0x41], [] + [[0x41]]);
      OwnEmbedded(item, false, 3, 2, [0x41], [] + [[0x41]], img);
    }
    ClustersFrom(item, false, 3);
    HeldIs(img, 2, [0x41], 3);
  }

  lemma FirstIs(item: Item, at: nat)
    requires Need(item, false) == 1
    ensures FirstOf(item, at) == at
  {
    hide Need;
  }

  lemma HeldIs(img: Image, d: nat, k: Key, h: nat)
    requires Listed(img, d, k) && FirstCluster(EntryOf(img, d, k)) == h && h in img.chains
    ensures HeldBy(img, d, k) == img.chains[h]
  {
    hide FirstCluster;
  }

  lemma Kinds(e: Slot)
    ensures Attributes(e) == ATTR_DIRECTORY ==> IsDirectory(e)
    ensures Attributes(e) == ATTR_ARCHIVE ==> !IsDirectory(e)
  {
  }

  lemma OneChild(root: Item, item: Item)
    requires root == Folder([], [item]) && item.name == [0x41] && Need(item, false) == 1 && Total(item, false) == 1
             && Nameable(item)
    ensures NameableAll(root.children) && Total(root, true) == 2 && Need(root, true) == 1
  {
    OneLetter(0x41);
    assert root.children[1..] == [] && TotalOf([]) == 0;
    assert TotalOf(root.children) == Total(item, false);
    hide ShortName11;
  }

  /** A tree with one child that fills one cluster, mounted with one cluster to spare. */
  method OneChildVolume(item: Item, volume: seq<Byte>) returns (vol: Volume)
    requires |volume| == 11
    requires item.name == [0x41] && Need(item, false) == 1 && Total(item, false) == 1 && Nameable(item)
    ensures vol.Valid() && |FreeClusters(vol.Now().fat)| == 1 && vol.Now().root == 2 && vol.Now().size == 512
    ensures var img := vol.Now();
            && Listed(img, 2, [0x41]) && FirstCluster(EntryOf(img, 2, [0x41])) == 3 && HeldBy(img, 2, [0x41]) == [3]
            && Attributes(EntryOf(img, 2, [0x41])) == (if item.Folder? then ATTR_DIRECTORY else ATTR_ARCHIVE)
            && Here(item, false, 3, 2, [0x41], [] + [[0x41]], img)
  {
    hide *;
    var root := Folder([], [item]);
    OneChild(root, item);
    Limit();
    BuildableIs(root, 37, 2);
    var mounted := BuildAndMount(root, 37, volume);
    vol := mounted;
    ghost var img := vol.Now();
    RootFacts(root, img);
    RootImage(root, img.fat, img.disk);
    ClustersFrom(root, true, 2);
    ChildFacts(root, item, img);
    OneFree(img.fat, 4);
  }

  /** A file of one cluster: appending two more fails, and the file keeps the one that was free. */
  method FileAndOneFree(volume: seq<Byte>) returns (vol: Volume)
    requires |volume| == 11
    ensures vol.Valid() && |FreeClusters(vol.Now().fat)| == 1
    ensures forall data: seq<Byte> | |data| == 1024 ::
              var op := Write([0x2F, 0x61], data, true);
              ResultOf(vol.Now(), op) == NoSpace && FreeAfter(vol.Now(), op) == 0
  {
    hide *;
    OneSector();
    vol := OneChildVolume(File([0x41], Zeros(512)), volume);
    ghost var img := vol.Now();
    vol.Parts();
    Kinds(EntryOf(img, 2, [0x41]));
    forall data: seq<Byte> | |data| == 1024
      ensures var op := Write([0x2F, 0x61], data, true);
              ResultOf(vol.Now(), op) == NoSpace && FreeAfter(vol.Now(), op) == 0
    {
      KeptByFile(img, data);
    }
  }

  lemma OneSector()
    ensures Need(File([0x41], Zeros(512)), false) == 1 && Total(File([0x41], Zeros(512)), false) == 1
            && Nameable(File([0x41], Zeros(512))) && ATTR_ARCHIVE != ATTR_DIRECTORY
    ensures Need(Folder([0x41], []), false) == 1 && Total(Folder([0x41], []), false) == 1
            && Nameable(Folder([0x41], []))
  {
  }

  /** An empty directory "A": renaming "/a" to "/A/b" returns OK and moves it into itself. */
  method DirectoryInItself(volume: seq<Byte>) returns (vol: Volume)
    requires |volume| == 11
    ensures vol.Valid() && Listed(vol.Now(), vol.Now().root, [0x41])
    ensures RenameResult(vol.Now(), [0x2F, 0x61], [0x2F, 0x41, 0x2F, 0x62]) == Ok
            && IntoItself(vol.Now(), vol.Now().root, [0x41], 3)
  {
    hide *;
    OneSector();
    vol := OneChildVolume(Folder([0x41], []), volume);
    ghost var img := vol.Now();
    vol.Parts();
    Kinds(EntryOf(img, 2, [0x41]));
    HereFolder(Folder([0x41], []), false, 3, 2, [0x41], [] + [[0x41]], img);
    NothingInside(img);
    RoomThere(img, 2, [0x41], 3, [0x62]);
    MissedMove(img, 3);
  }

  lemma NothingInside(img: Image)
    requires FitsAt(Folder([0x41], []), false, 3) && Fitting([], 3 + Need(Folder([0x41], []), false))
    requires 3 in img.views && img.views[3] == FolderView(Folder([0x41], []), false, 3, 2)
    ensures !Listed(img, 3, [0x42])
  {
    var item := Folder([0x41], []);
    hide FolderView, FitsAt, Fitting, Need, ViewOf;
    FolderViewHas(item, false, 3, 2, [0x42]);
    ViewNone(3 + Need(item, false), FirstChildSlot(false));
  }

  lemma RoomThere(img: Image, d: nat, k: Key, d2: nat, name: Str)
    requires Listed(img, d, k) && d2 in img.views && |FreeClusters(img.fat)| == 1
    ensures !NoRoomToMove(img, d, k, d2, name)
  {
    hide FreeClusters, HasRun, RenameSlots, SlotsOf;
  }
}
