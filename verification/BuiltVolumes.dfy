/** The whole way: a source tree built into an image, mounted, and read back by the kernel. */
module BuiltVolumes {
  import opened Bytes
  import opened FatNames
  import opened FatTables
  import opened FatBlocks
  import opened FatStore
  import opened FatImage
  import opened FatLookup
  import opened FatVolume
  import opened BuilderNames
  import opened BuilderTree
  import opened BuilderRegistry
  import opened BuilderImage
  import opened ImageBuilder
  import opened ImageSectors
  import Layout = ImageLayout
  import FatNaming
  import FatRemove
  import FatWrites
  import FatRuns

  /** Sectors of the largest image the kernel mounts. */
  const MOUNTABLE := 532510

  /** Clusters the layout leaves, counting from 0. */
  function ClustersIn(total: nat): int
    requires total >= 30
  {
    total - 30 - 2 * Layout.Centre(total)
  }

  /** Whether the builder makes an image of the tree: the layout settles, every name is a short
      name of its own, and the clusters suffice. */
  ghost predicate Buildable(root: Item, total: nat) {
    total >= 35 && !Layout.Unsettled(total) && Nameable(root) && 2 + Total(root, true) <= ClustersIn(total)
  }

  /** What the builder's main program leaves in an image of `total` sectors: a boot sector, and a
      FAT and clusters that carry the tree, with nothing behind it. */
  ghost predicate Made(root: Item, total: nat, image: Disk) {
    && 35 <= total == |image| && ValidDisk(image, SECTOR) && !Layout.Unsettled(total)
    && var boot := BootOf(total);
       && Parsed(image[0]) == boot && Layout.Mountable(boot)
       && Carries(root, FatOf(image, GeometryOf(boot)), DiskOf(image, GeometryOf(boot)))
       && RestFree(FatOf(image, GeometryOf(boot)), 2 + Total(root, true))
  }

  ghost predicate RestFree(fat: Table, from: nat) {
    forall c: nat | from <= c < |fat| :: fat[c] == 0
  }

  /** The only boot sector that fits. */
  function BootOf(total: nat): Layout.BootSector
    requires total >= 30
  {
    Layout.Written(total, Layout.Geometry(Layout.Centre(total), 0, 0))
  }

  /** The builder's main program. */
  method Build(root: Item, total: nat, volume: seq<Byte>) returns (made: bool, image: array<seq<Byte>>)
    requires root.Folder? && total <= MOUNTABLE && |volume| == 11
    ensures made <==> Buildable(root, total)
    ensures fresh(image) && (made ==> Made(root, total, image[..]))
  {
    hide *;
    Limit();
    image := new seq<Byte>[0];
    var out := Layout.ComputeLayout(total);
    if !out.Layout? {
      NotBuildable(root, total);
      return false, image;
    }
    var clusters := out.g.clusters;
    ClustersAreIn(root, total, out.g);
    var placed := Allocate(root, true, 2, clusters);
    if placed.None? {
      return false, image;
    }
    ItFits(root, clusters);
    var fat := NewFat(out.g.spf * WORDS_PER_SECTOR);
    ghost var empty := fat[..];
    RegisterChains(fat, placed.value.0, root, true, 2, 0, [], []);
    var disk := NewDisk(clusters);
    ghost var blank := disk[..];
    BlankPart(disk[..], 2, 2 + Total(root, true));
    WriteDirectories(disk, placed.value.0, 0, true, root, 2);
    ChainsInside(root, fat[..], clusters);
    CarriesAll(root, fat[..clusters], disk[..]);
    image := WriteImage(total, out.g, fat, disk, volume);
    StillBlank(blank, disk[..], root);
    RestOf(empty, fat[..], clusters, root);
    IsMade(root, total, out.g, image[..], fat[..], disk[..]);
    made := true;
  }

  /** The chains of the tree do not need the rest of the table. */
  lemma ChainsInside(root: Item, fat: Table, n: nat)
    requires root.Folder? && FitsAt(root, true, 2) && 2 + Total(root, true) <= n <= |fat|
             && Chained(Reg(root, true, 2, 0, [], []), fat)
    ensures Chained(Reg(root, true, 2, 0, [], []), fat[..n])
  {
    hide *;
    RegRanged(root, true, 2, 0, [], []);
    RangedInside(Reg(root, true, 2, 0, [], []), 2, 2 + Total(root, true), fat, n);
  }

  lemma RangedInside(reg: Registry, lo: nat, hi: nat, fat: Table, n: nat)
    requires Ranged(reg, lo, hi) && hi <= n <= |fat| && Chained(reg, fat)
    ensures Chained(reg, fat[..n])
  {
    hide IsChain;
    forall h | h in reg.chains ensures IsChain(fat[..n], reg.chains[h]) {
      assert ChainIn(reg, lo, hi, h);
      ChainInside(fat, reg.chains[h], n);
    }
  }

  lemma ChainInside(fat: Table, cs: seq<nat>, n: nat)
    requires IsChain(fat, cs) && n <= |fat| && forall i: nat | i < |cs| :: cs[i] < n
    ensures IsChain(fat[..n], cs)
  {
    forall i: nat | i < |cs| ensures LinkAt(fat[..n], cs, i) {
      assert LinkAt(fat, cs, i);
    }
  }

  lemma StillBlank(blank: Disk, disk: Disk, root: Item)
    requires OnlyIn(blank, disk, 2, 2 + Total(root, true)) && Blank(blank, 0, |blank|) && |blank| >= 2
    ensures disk[0] == disk[1] == Zeros(SECTOR)
  {
    hide Total;
  }

  lemma RestOf(empty: Table, fat: Table, n: nat, root: Item)
    requires OnlyIn(empty, fat, 2, 2 + Total(root, true)) && n <= |fat|
             && forall c: nat | 2 <= c < |empty| :: empty[c] == 0
    ensures RestFree(fat[..n], 2 + Total(root, true))
  {
    hide Total;
  }

  lemma IsMade(root: Item, total: nat, g: Layout.Geometry, image: Disk, fat: Table, disk: Disk)
    requires 35 <= total <= MOUNTABLE && Layout.Fixed(total, g.spf) && !Layout.Unsettled(total)
    requires g.dataLba == Layout.RESERVED + Layout.FATS * g.spf && g.clusters == total - 30 - 2 * g.spf == |disk|
    requires LaidOut(image, total, g, fat, disk) && g.clusters <= |fat| && |disk| >= 2
             && disk[0] == disk[1] == Zeros(SECTOR)
    requires Carries(root, fat[..g.clusters], disk) && RestFree(fat[..g.clusters], 2 + Total(root, true))
    ensures Made(root, total, image)
  {
    Layout.SizeLimit(total, g.spf);
    Layout.FixedExactly(total, g.spf);
    Layout.BuiltClusters(total, g);
    assert BootOf(total) == Layout.Written(total, g);
    hide *;
    Limit();
    MountReads(image, total, g, fat, disk);
    LaidOutParts(image, total, g, fat, disk);
    MadeIs(root, total, image);
  }

  lemma MadeIs(root: Item, total: nat, image: Disk)
    requires 35 <= total == |image| && ValidDisk(image, SECTOR) && !Layout.Unsettled(total)
    requires var boot := BootOf(total);
             && Parsed(image[0]) == boot && Layout.Mountable(boot)
             && Carries(root, FatOf(image, GeometryOf(boot)), DiskOf(image, GeometryOf(boot)))
             && RestFree(FatOf(image, GeometryOf(boot)), 2 + Total(root, true))
    ensures Made(root, total, image)
  {
    hide Parsed, Carries, FatOf, DiskOf, Layout.Mountable, RestFree, Total, Layout.Unsettled, ValidDisk;
  }

  lemma LaidOutParts(image: Disk, total: nat, g: Layout.Geometry, fat: Table, disk: Disk)
    requires LaidOut(image, total, g, fat, disk)
    ensures |image| == total > 0 && ValidDisk(image, SECTOR) && Parsed(image[0]) == Layout.Written(total, g)
  {
    hide Parsed;
  }

  lemma Limit()
    ensures MOUNTABLE == 532510 && MAX_CLUSTERS == 524288 && SECTOR == SECTOR_SIZE == 512 && WORDS_PER_SECTOR == 128
    ensures Layout.RESERVED == 32 && Layout.FATS == 2 && Layout.ROOT == 2
  {
  }

  lemma NotBuildable(root: Item, total: nat)
    ensures total < 35 || Layout.Unsettled(total) ==> !Buildable(root, total)
  {
    hide Total, Nameable, Layout.Unsettled;
  }

  lemma ClustersAreIn(root: Item, total: nat, g: Layout.Geometry)
    requires 35 <= total <= MOUNTABLE && !Layout.Unsettled(total) && Layout.Fixed(total, g.spf)
    ensures total - 30 - 2 * g.spf == ClustersIn(total) <= g.spf * WORDS_PER_SECTOR <= MAX_CLUSTERS
    ensures Buildable(root, total) <==> Nameable(root) && 2 + Total(root, true) <= ClustersIn(total)
  {
    Layout.FixedExactly(total, g.spf);
    Layout.CentreMeans(total);
    hide Total, Nameable, Layout.Unsettled, Layout.Fixed, Layout.Centre;
  }

  lemma ItFits(root: Item, clusters: nat)
    requires root.Folder? && Nameable(root) && 2 + Total(root, true) <= clusters <= MAX_CLUSTERS
    ensures FitsAt(root, true, 2)
  {
    hide Nameable, Total;
  }

  method NewFat(n: nat) returns (fat: array<U32>)
    requires n >= 2
    ensures fresh(fat) && fat.Length == n && forall c: nat | 2 <= c < n :: fat[c] == 0
  {
    fat := new U32[n](_ => 0);
    fat[0], fat[1] := 0x0FFF_FFF8, EOC;
  }

  method NewDisk(n: nat) returns (disk: array<seq<Byte>>)
    ensures fresh(disk) && disk.Length == n && ValidDisk(disk[..], SECTOR) && Blank(disk[..], 0, n)
  {
    disk := new seq<Byte>[n](_ => Zeros(SECTOR));
  }

  lemma BlankPart(disk: Disk, lo: nat, hi: nat)
    requires Blank(disk, 0, |disk|) && hi <= |disk|
    ensures Blank(disk, lo, hi)
  {
  }

  lemma CarriesAll(root: Item, fat: Table, disk: Disk)
    requires root.Folder? && FitsAt(root, true, 2) && |fat| <= MAX_CLUSTERS && |disk| == |fat|
             && ValidDisk(disk, SECTOR)
    requires Holds(root, true, 2, 0, disk) && Chained(Reg(root, true, 2, 0, [], []), fat)
    ensures Carries(root, fat, disk)
  {
    hide Holds, Reg, FitsAt, ValidDisk, IsChain;
  }

  // ------------------------------------------------------------------ mounting

  /** Built, then mounted: boot sector, FAT and clusters are found, and they are a valid volume that
      lists exactly the source tree and has no cluster in use behind it. */
  method BuildAndMount(root: Item, total: nat, volume: seq<Byte>) returns (vol: Volume?)
    requires root.Folder? && total <= MOUNTABLE && |volume| == 11
    ensures vol != null <==> Buildable(root, total)
    ensures vol != null ==> vol.Valid() && FitsAt(root, true, 2) && vol.root == Layout.ROOT && vol.store.size == SECTOR
    ensures vol != null ==> forall path | !HasDots(path) ::
            Lookup(Tree(vol.Now()), vol.root, path) == Find(root, true, 2, path)
    ensures vol != null ==>
              var img := vol.Now();
              && |img.fat| == ClustersIn(total) && RestFree(img.fat, 2 + Total(root, true))
              && Carries(root, img.fat, img.disk) && img == ImageOf(root, img.fat, img.disk)
  {
    hide *;
    Limit();
    var made, image := Build(root, total, volume);
    if !made {
      return null;
    }
    MadeParts(root, total, image[..]);
    var mounted := MountImage(image);
    var (m, store) := mounted.value;
    ghost var fat, disk := FatOf(image[..], m), DiskOf(image[..], m);
    CarriesParts(root, fat, disk);
    ghost var img := ImageOf(root, fat, disk);
    BuiltValid(root, fat, disk);
    RootImage(root, fat, disk);
    vol := new Volume(store, m.root, img);
    forall path | !HasDots(path) ensures Lookup(Tree(vol.Now()), vol.root, path) == Find(root, true, 2, path) {
      RootHere(root, fat, disk);
      FindMeans(root, true, 2, 0, [], [], img, path);
    }
  }

  /** Mounting succeeds, with the layout's numbers. */
  lemma MadeParts(root: Item, total: nat, image: Disk)
    requires Made(root, total, image) && total <= MOUNTABLE
    ensures |image| > 0 && ValidDisk(image, SECTOR) && Layout.Sectors(Parsed(image[0])) <= |image|
    ensures Layout.Mountable(Parsed(image[0]))
    ensures var m := GeometryOf(Parsed(image[0]));
            && m.sectorsPerCluster == 1 && m.root == Layout.ROOT && m.clusters == ClustersIn(total)
            && Carries(root, FatOf(image, m), DiskOf(image, m)) && RestFree(FatOf(image, m), 2 + Total(root, true))
  {
    hide Parsed, Carries, FatOf, DiskOf, RestFree, Total;
    Layout.CentreMeans(total);
  }

  // ----------------------------------------------------------- reading it back

  /** The source tree has a file with these bytes under these names. */
  ghost predicate FileAt(item: Item, names: seq<Str>, data: seq<Byte>)
    requires item.Folder?
    decreases |names|
  {
    names != [] && exists i: nat :: i < |item.children| && ChildAt(item.children[i], names, data)
  }

  ghost predicate ChildAt(child: Item, names: seq<Str>, data: seq<Byte>)
    requires names != []
    decreases |names|, 0
  {
    && child.name == names[0]
    && if |names| == 1 then child.File? && child.data == data else child.Folder? && FileAt(child, names[1..], data)
  }

  /** No name ends in a dot, the one thing the eleven bytes cannot keep. */
  predicate NoTrailingDots(names: seq<Str>) {
    forall i | 0 <= i < |names| && names[i] != [] :: names[i][|names[i]| - 1] != DOT
  }

  /** A name of the tree is a valid one, and its key is its folded form. */
  lemma NameKept(name: Str)
    requires ShortName11(name).Some? && (name != [] ==> name[|name| - 1] != DOT)
    ensures ValidName(name) && KeyOf(name) == Fold(name)
  {
    SameParts(name);
    ShortNameIs(name);
    KeyIs(name);
    assert Core(name) == name;
    hide ShortName11, KeyOf;
  }

  /** The path of a file names it, and nothing else does. */
  lemma {:induction false} FileFound(item: Item, isRoot: bool, at: nat, names: seq<Str>, data: seq<Byte>)
    requires item.Folder? && Nameable(item) && FileAt(item, names, data) && NoTrailingDots(names)
    ensures Find(item, isRoot, at, FatRuns.PlaceOf(names)) == At(FileNode(data))
    ensures forall i | 0 <= i < |names| :: ValidName(names[i])
    decreases |names|
  {
    hide *;
    var path := FatRuns.PlaceOf(names);
    var i := ChildOf(item, names, data);
    ChildParts(item.children[i], names, data);
    NamedChildren(item);
    AllNamed(item.children, i);
    DotsRest(names);
    NameKept(names[0]);
    FatRuns.PlaceHead(names);
    FindUnfolds(item, isRoot, at, path);
    IndexIs(item.children, i);
    var c := StartOf(item.children, at + Need(item, isRoot), i);
    FindInUnfolds(item.children[i], c, path);
    NodeKinds(item.children[i], c);
    if |names| > 1 {
      FileFound(item.children[i], false, c, names[1..], data);
    }
    forall j | 0 <= j < |names| ensures ValidName(names[j]) {
      assert j > 0 ==> names[j] == names[1..][j - 1];
    }
  }

  lemma ChildOf(item: Item, names: seq<Str>, data: seq<Byte>) returns (i: nat)
    requires item.Folder? && FileAt(item, names, data)
    ensures names != [] && i < |item.children| && ChildAt(item.children[i], names, data)
  {
    hide ChildAt;
    i :| i < |item.children| && ChildAt(item.children[i], names, data);
  }

  lemma ChildParts(child: Item, names: seq<Str>, data: seq<Byte>)
    requires names != [] && ChildAt(child, names, data)
    ensures child.name == names[0]
    ensures |names| == 1 ==> child.File? && child.data == data
    ensures |names| > 1 ==> child.Folder? && FileAt(child, names[1..], data)
  {
    hide FileAt;
  }

  lemma NamedChildren(item: Item)
    requires item.Folder? && Nameable(item)
    ensures NameableAll(item.children)
  {
    hide NameableAll;
  }

  lemma DotsRest(names: seq<Str>)
    requires names != [] && NoTrailingDots(names)
    ensures names[0] != [] ==> names[0][|names[0]| - 1] != DOT
    ensures NoTrailingDots(names[1..])
  {
    assert forall i | 0 <= i < |names[1..]| :: names[1..][i] == names[i + 1];
  }

  lemma IndexIs(items: seq<Item>, i: nat)
    requires NameableAll(items) && i < |items|
    ensures ShortName11(items[i].name).Some? && IndexOf(items, KeyOf(items[i].name)) == Some(i)
  {
    hide *;
    AllNamed(items, i);
    var r := IndexOf(items, KeyOf(items[i].name));
    if r.Some? {
      if r.value < i { KeysDiffer(items, r.value, i); }
      if i < r.value { KeysDiffer(items, i, r.value); }
    }
  }

  /** For every tree the builder accepts, the kernel's lookup and chain walk return each file's
      exact bytes. */
  method ReadBuilt(root: Item, total: nat, volume: seq<Byte>, path: Str)
    returns (built: bool, r: Result, out: seq<Byte>)
    requires root.Folder? && total <= MOUNTABLE && |volume| == 11
    ensures built <==> Buildable(root, total)
    ensures built ==> forall data | FileAt(root, Paths.Components(path), data)
            && NoTrailingDots(Paths.Components(path)) ::
              r == Ok && out == data
  {
    hide *;
    r, out := IoError, [];
    var vol := BuildAndMount(root, total, volume);
    if vol == null {
      return false, r, out;
    }
    built := true;
    r, out := FatWrites.ReadFile(vol, path);
    NameableRoot(root, total);
    forall data | FileAt(root, Paths.Components(path), data) && NoTrailingDots(Paths.Components(path))
      ensures r == Ok && out == data
    {
      FileFound(root, true, 2, Paths.Components(path), data);
      PlainPath(Paths.Components(path));
      ReadIs(vol, Paths.Components(path), data, r, out);
    }
  }

  lemma NameableRoot(root: Item, total: nat)
    requires Buildable(root, total)
    ensures Nameable(root)
  {
    hide Nameable, Total;
  }

  lemma PlainPath(names: seq<Str>)
    requires forall i | 0 <= i < |names| :: ValidName(names[i])
    ensures !HasDots(FatRuns.PlaceOf(names))
  {
    forall i | 0 <= i < |names| ensures !IsDot(FatRuns.PlaceOf(names)[i]) {
      assert ValidName(names[i]);
      FatDirectory.FoldDots(names[i]);
    }
  }

  /** What fat32_read_file promises, where the tree has a file. */
  lemma ReadIs(vol: Volume, names: seq<Str>, data: seq<Byte>, r: Result, out: seq<Byte>)
    requires vol.Valid() && forall i | 0 <= i < |names| :: ValidName(names[i])
    requires Lookup(Tree(vol.Now()), vol.root, FatRuns.PlaceOf(names)) == At(FileNode(data))
    requires match Walk(vol.Now(), vol.root, names)
             case Error(e) => r == e
             case Itself(_) => r == IsADirectory
             case Named(d, k) =>
               if FatSlots.IsDirectory(EntryOf(vol.Now(), d, k)) then r == IsADirectory
               else r == Ok && d in Tree(vol.Now()) && k in Tree(vol.Now())[d] && Tree(vol.Now())[d][k] == FileNode(out)
    ensures r == Ok && out == data
  {
    hide *;
    var img := vol.Now();
    vol.Parts();
    FatNaming.VolumeIs(vol, img);
    FatRuns.RootInPlace(img);
    FatRuns.WalkMeans(img, vol.root, names);
    LookupHere(Tree(img), vol.root);
    FatWrites.WalkIsLinked(img, vol.root, names);
    NamesPlaced(names);
    var t := Walk(img, vol.root, names);
    if t.Named? {
      InViews(img, t.dir, t.key);
      FatRemove.ListedInTree(img, t.dir, t.key);
    }
  }

  lemma NamesPlaced(names: seq<Str>)
    ensures names == [] ==> FatRuns.PlaceOf(names) == []
  {
  }

  lemma InViews(img: Image, d: nat, k: Key)
    requires Listed(img, d, k)
    ensures d in img.views
  {
  }
}
