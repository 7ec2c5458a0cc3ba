/** Creating names: the part of write and mkdir that enters a name into its directory. */
module FatNaming {
  import opened Bytes
  import opened FatSlots
  import opened FatNames
  import opened FatAliases
  import opened FatTables
  import opened FatBlocks
  import opened FatDirectory
  import opened FatStore
  import opened FatData
  import opened FatImage
  import opened FatSteps
  import opened FatLinks
  import opened FatMoves
  import opened FatLookup
  import opened FatVolume
  import opened Paths

  // ------------------------------------------------------------ splitting a path

  const PARENT_CAPACITY := 128   // of the buffers the callers hand to split_path

  /** The parent of the path, with its terminator, fits the callers' buffers.  split_path does not
      check it. */
  predicate ParentFits(path: Str) {
    Splittable(path) ==> LastSlash(path) >= 0 && |ParentOf(path)| < PARENT_CAPACITY
  }

  /** Where split_path writes into the parent's buffer: its bytes and the terminator behind them. */
  predicate StoresParentAt(path: Str, i: nat)
    requires Splittable(path)
  {
    if LastSlash(path) == 0 then i < 2 else i <= LastSlash(path)
  }

  /** All of them are in the buffer if and only if the parent has at most 127 bytes. */
  lemma StoresInside(path: Str)
    requires Splittable(path)
    ensures (forall i: nat | StoresParentAt(path, i) :: i < PARENT_CAPACITY) <==> ParentFits(path)
  {
    SlashThere(path, 0);
    assert StoresParentAt(path, |ParentOf(path)|);
  }

  /** An input: a name of 127 bytes below the root, and one more name below that. */
  lemma LongParent()
    ensures var path := [SLASH] + seq(127, _ => 0x61) + [SLASH, 0x62];
            Splittable(path) && LastSlash(path) == 128 && !ParentFits(path) && StoresParentAt(path, 128)
  {
    var path: Str := [SLASH] + seq(127, _ => 0x61) + [SLASH, 0x62];
    assert path[128] == SLASH && path[129] == 0x62;
  }

  /** What path_normalize leaves in a buffer of 128 bytes always fits. */
  lemma NormalFits(cwd: Str, input: Str)
    requires |Normal(cwd, input)| < PARENT_CAPACITY
    ensures ParentFits(Normal(cwd, input))
  {
    ShortFits(Normal(cwd, input));
  }

  lemma ShortFits(path: Str)
    requires |path| <= PARENT_CAPACITY
    ensures ParentFits(path)
  {
    if Splittable(path) {
      SlashThere(path, 0);
    }
  }

  lemma {:induction false} SlashThere(s: Str, i: nat)
    requires i < |s| && s[i] == SLASH
    ensures LastSlash(s) >= i
  {
    if s[|s| - 1] != SLASH {
      SlashThere(s[..|s| - 1], i);
    }
  }

  /** `split_path`: parent and name, each with its terminator, in the callers' buffers. */
  method SplitPath(path: Str, parentOut: array<Byte>, nameOut: array<Byte>)
    returns (r: Result, parentLen: nat, nameLen: nat)
    requires parentOut.Length == PARENT_CAPACITY && nameOut.Length == NAME_CAPACITY && parentOut != nameOut
    requires ParentFits(path)
    modifies parentOut, nameOut
    ensures r == if Splittable(path) && LastSlash(path) >= 0 && |NameOf(path)| < NAME_CAPACITY then Ok else InvalidName
    ensures r == Ok ==>
              && parentLen == |ParentOf(path)| < PARENT_CAPACITY && nameLen == |NameOf(path)|
              && parentOut[..parentLen] == ParentOf(path) && parentOut[parentLen] == 0
              && nameOut[..nameLen] == NameOf(path) && nameOut[nameLen] == 0
  {
    parentLen, nameLen := 0, 0;
    if |path| < 2 || path[0] != SLASH {
      return InvalidName, 0, 0;
    }
    SlashThere(path, 0);
    var slash := FindLastSlash(path);
    if slash + 1 == |path| {
      return InvalidName, 0, 0;
    }
    if slash == 0 {
      parentOut[0], parentOut[1] := SLASH, 0;
      parentLen := 1;
    } else {
      for i := 0 to slash
        invariant parentOut[..i] == path[..i]
      {
        parentOut[i] := path[i];
      }
      parentOut[slash] := 0;
      parentLen := slash;
    }
    r, nameLen := CopyName(path, slash + 1, nameOut);
  }

  /** The last loop of split_path. */
  method CopyName(path: Str, from: nat, nameOut: array<Byte>) returns (r: Result, nameLen: nat)
    requires from <= |path| && nameOut.Length == NAME_CAPACITY
    modifies nameOut
    ensures r == if |path| - from < NAME_CAPACITY then Ok else InvalidName
    ensures r == Ok ==> nameLen == |path| - from && nameOut[..nameLen] == path[from..] && nameOut[nameLen] == 0
  {
    nameLen := 0;
    while from + nameLen < |path|
      invariant from + nameLen <= |path| && nameLen < NAME_CAPACITY
      invariant nameOut[..nameLen] == path[from..from + nameLen]
    {
      if nameLen + 1 >= NAME_CAPACITY {
        return InvalidName, nameLen;
      }
      nameOut[nameLen] := path[from + nameLen];
      nameLen := nameLen + 1;
    }
    nameOut[nameLen] := 0;
    r := Ok;
  }

  /** `lookup_parent_and_name` */
  method LookupParentAndName(vol: Volume, path: Str) returns (r: Result, dir: DirectoryRef, name: Str, parent: Str)
    requires vol.Valid() && ParentFits(path)
    ensures match Locate(vol.Now(), path)
            case Fails(e) => r == e
            case In(d, n) =>
              && r == Ok && dir.first == d && d in vol.views && (dir.isRoot <==> d == vol.root) && name == n
              && LastSlash(path) >= 0 && parent == ParentOf(path)
  {
    hide *;
    dir, name, parent := DirectoryRef(true, 0), [], [];
    LocateSplits(vol.Now(), path);
    Capacities();
    var parentOut := new Byte[PARENT_CAPACITY](_ => 0);
    var nameOut := new Byte[NAME_CAPACITY](_ => 0);
    var parentLen, nameLen;
    r, parentLen, nameLen := SplitPath(path, parentOut, nameOut);
    if r != Ok {
      return;
    }
    parent, name := parentOut[..parentLen], nameOut[..nameLen];
    var valid := ValidateLongName(name);
    if !valid {
      return InvalidName, dir, name, parent;
    }
    r, dir := ResolveDirectory(vol, parent, name);
  }

  lemma Capacities()
    ensures PARENT_CAPACITY == 128 && NAME_CAPACITY == 128
  {
  }

  lemma LocateSplits(img: Image, path: Str)
    ensures if Splittable(path) && LastSlash(path) >= 0 && |NameOf(path)| < NAME_CAPACITY then
              Locate(img, path) ==
              if ValidName(NameOf(path)) then LocateIn(img, ParentOf(path), NameOf(path)) else Fails(InvalidName)
            else Locate(img, path) == Fails(InvalidName)
  {
    if Splittable(path) {
      SlashThere(path, 0);
      NameBound(NameOf(path));
    }
    hide Walk, Components, ValidName;
  }

  lemma NameBound(name: Str)
    ensures ValidName(name) ==> |name| < NAME_CAPACITY
  {
  }

  method FindLastSlash(path: Str) returns (i: int)
    ensures i == LastSlash(path)
  {
    i := -1;
    for j := 0 to |path|
      invariant i == LastSlash(path[..j])
    {
      assert path[..j + 1][..j] == path[..j];
      if path[j] == SLASH {
        i := j;
      }
    }
    assert path[..|path|] == path;
  }

  method ResolveDirectory(vol: Volume, parent: Str, ghost name: Str) returns (r: Result, dir: DirectoryRef)
    requires vol.Valid() && ValidName(name)
    ensures match LocateIn(vol.Now(), parent, name)
            case Fails(e) => r == e
            case In(d, n) => r == Ok && dir.first == d && d in vol.views && (dir.isRoot <==> d == vol.root) && n == name
  {
    dir := DirectoryRef(true, 0);
    ResolvedDir(vol, parent);
    hide ValidName, Components;
    var isRoot, entry;
    r, isRoot, entry := vol.ResolvePath(parent);
    hide Walk, FirstCluster, IsDirectory, Listed;
    if r != Ok {
      return;
    }
    if isRoot {
      return Ok, DirectoryRef(true, vol.root);
    }
    if !IsDirectory(entry) {
      return NotADirectory, dir;
    }
    dir := DirectoryRef(false, FirstCluster(entry));
  }

  lemma ResolvedDir(vol: Volume, parent: Str)
    requires vol.Valid()
    ensures vol.root as nat in vol.views
    ensures match Walk(vol.Now(), vol.root, Components(parent))
            case Itself(d) => d == vol.root
            case Named(d, k) => Listed(vol.Now(), d, k) &&
              (IsDirectory(EntryOf(vol.Now(), d, k)) ==>
                FirstCluster(EntryOf(vol.Now(), d, k)) in vol.views
                  && FirstCluster(EntryOf(vol.Now(), d, k)) != vol.root as nat)
            case Error(e) => e != Ok
  {
    vol.RootIsDirectory();
    hide Storage, AllSlots, Linked, ValidName, FirstCluster, IsDirectory;
    WalkStays(vol.Now(), vol.root, Components(parent));
    var t := Walk(vol.Now(), vol.root, Components(parent));
    if t.Named? {
      EntryKind(vol.Now(), t.dir, t.key);
    }
  }

  // ---------------------------------------------------------- what a name costs

  /** The clusters a name refers to. */
  ghost function HeldBy(img: Image, d: nat, k: Key): seq<nat> {
    if Listed(img, d, k) then OldChain(img.chains, FirstCluster(EntryOf(img, d, k))) else []
  }

  /** The clusters directory `d` has gained. */
  ghost function Gained(img: Image, img': Image, d: nat): seq<nat> {
    if d in img.chains && d in img'.chains && img.chains[d] <= img'.chains[d] then img'.chains[d][|img.chains[d]|..]
    else []
  }

  /** From `img` to `img'` the name (`d`, `k`) has exchanged its clusters and its directory has gained
      `grown`; no other cluster was taken or freed, and every other chain is the same. */
  ghost predicate Spent(img: Image, img': Image, d: nat, k: Key, grown: nat) {
    && d in img.chains && d in img'.chains && img.chains[d] <= img'.chains[d] && |Gained(img, img', d)| == grown
    && FreeClusters(img'.fat) ==
       FreeClusters(img.fat) + SetOf(HeldBy(img, d, k)) - SetOf(HeldBy(img', d, k)) - SetOf(Gained(img, img', d))
    && |FreeClusters(img'.fat)| ==
       |FreeClusters(img.fat)| + |HeldBy(img, d, k)| - |HeldBy(img', d, k)| - grown
    && forall h | h in img.chains && h != d && h !in HeldBy(img, d, k) ::
         h in img'.chains && img'.chains[h] == img.chains[h]
  }

  /** 1 if a directory has to grow for a run of slots. */
  ghost function Growth(img: Image, d: nat, needed: nat): nat
    requires d in img.chains
  {
    if HasRun(SlotsOf(img, d), needed) then 0 else 1
  }

  /** A step that may only have lengthened the directory's own chain. */
  ghost predicate OnlyGrew(img: Image, img': Image, d: nat, grown: nat) {
    && d in img.chains && d in img'.chains && img.chains[d] <= img'.chains[d] && |Gained(img, img', d)| == grown
    && FreeClusters(img'.fat) == FreeClusters(img.fat) - SetOf(Gained(img, img', d))
    && |FreeClusters(img'.fat)| == |FreeClusters(img.fat)| - grown
    && forall h | h in img.chains && h != d :: h in img'.chains && img'.chains[h] == img.chains[h]
  }

  lemma DirOnlyGrew(img: Image, img': Image, d: nat, grown: nat)
    requires DirGrown(img, img', d) && |Gained(img, img', d)| == grown <= 1
    ensures OnlyGrew(img, img', d, grown)
  {
    var added := Gained(img, img', d);
    hide FreeClusters, AgreeOff, DiskOff;
    if grown == 0 {
      assert added == [] && SetOf(added) == {};
    } else {
      assert added == [added[0]] && SetOf(added) == {added[0]};
      FreeIn(img.fat, added[0]);
    }
  }

  lemma FreeIn(fat: Table, c: nat)
    ensures IsFree(fat, c) <==> c in FreeClusters(fat)
  {
  }

  /** A name entered with the chain `cs`, taken before, in a directory that has grown since. */
  lemma EnteredSpent(img: Image, img1: Image, img': Image, d: nat, k: Key, cs: seq<nat>, grown: nat)
    requires img1.chains == img.chains && FreeClusters(img1.fat) == FreeClusters(img.fat) - SetOf(cs)
    requires |FreeClusters(img1.fat)| == |FreeClusters(img.fat)| - |cs|
    requires OnlyGrew(img1, img', d, grown) && !Listed(img, d, k) && HeldBy(img', d, k) == cs
    ensures Spent(img, img', d, k, grown)
  {
    hide FreeClusters;
    assert HeldBy(img, d, k) == [] && SetOf([]) == {};
    assert Gained(img1, img', d) == Gained(img, img', d);
  }

  // ---------------------------------------------------------- free slots

  /** Out of slots and clusters: the directory has no run of `needed` slots and cannot grow. */
  ghost predicate DirectoryFull(img: Image, d: nat, needed: nat) {
    d in img.chains && !HasRun(SlotsOf(img, d), needed) && FreeClusters(img.fat) == {}
  }

  /** Directory `d` gained at most one zeroed cluster; nothing else changed. */
  ghost predicate DirGrown(img: Image, img': Image, d: nat) {
    && d in img.chains && d in img'.chains && img.chains[d] <= img'.chains[d]
    && img' == img.(fat := img'.fat, disk := img'.disk, chains := img.chains[d := img'.chains[d]])
    && var added := img'.chains[d][|img.chains[d]|..];
       && (forall c | c in added :: IsFree(img.fat, c))
       && AgreeOff(img.fat, img'.fat, img'.chains[d]) && DiskOff(img.disk, img'.disk, added)
       && FreeClusters(img'.fat) == FreeClusters(img.fat) - SetOf(added)
  }

  lemma GrowthIs(img: Image, d: nat, needed: nat)
    requires d in img.chains
    ensures Growth(img, d, needed) == if HasRun(SlotsOf(img, d), needed) then 0 else 1
  {
    hide HasRun, SlotsOf;
  }

  lemma NotGrown(img: Image, d: nat)
    requires d in img.chains
    ensures DirGrown(img, img, d) && Gained(img, img, d) == []
  {
    assert img.chains[d := img.chains[d]] == img.chains;
    assert img.chains[d][|img.chains[d]|..] == [];
  }

  /** A chain no directory owns survives another directory's growth. */
  lemma OrphanKept(img: Image, img': Image, d: nat, cs: seq<nat>)
    requires Storage(img) && DirGrown(img, img', d) && IsChain(img.fat, cs) && Unowned(img, cs)
    ensures IsChain(img'.fat, cs) && Unowned(img', cs)
    ensures forall c | c in cs && c < |img.disk| :: img'.disk[c] == img.disk[c]
  {
    var cs' := img'.chains[d];
    var added := cs'[|img.chains[d]|..];
    assert cs' == img.chains[d] + added;
    assert Apart(img.chains[d], cs);
    hide IsChain;
    forall c | c in cs ensures c !in cs' {
      ChainInUse(img.fat, cs, c);
    }
    ChainFrame(img.fat, img'.fat, cs, cs');
    forall h | h in img'.chains ensures Apart(img'.chains[h], cs) {
      if h != d {
        assert Apart(img.chains[h], cs);
      }
    }
  }

  /** Linking one zeroed cluster behind a directory's chain is such a growth. */
  lemma DirectoryGrows(img: Image, img': Image, d: nat, c: nat)
    requires ValidImage(img) && d in img.chains && IsFree(img.fat, c) && c < |img.disk|
    requires img' == img.(fat := img'.fat, disk := img.disk[c := Zeros(img.size)],
             chains := img.chains[d := img.chains[d] + [c]])
    requires IsChain(img'.fat, img.chains[d] + [c]) && AgreeOff(img.fat, img'.fat, img.chains[d] + [c])
    requires FreeClusters(img'.fat) == FreeClusters(img.fat) - {c}
    ensures ValidImage(img') && Tree(img') == Tree(img) && DirGrown(img, img', d)
    ensures SlotsOf(img, d) <= SlotsOf(img', d) && |SlotsOf(img', d)| >= |SlotsOf(img, d)| + 16
    ensures forall i: nat | |SlotsOf(img, d)| <= i < |SlotsOf(img', d)| :: IsEnd(SlotsOf(img', d)[i])
  {
    hide Linked, Storage, AllSlots, IsChain, Tree;
    var cs' := img.chains[d] + [c];
    assert cs'[|img.chains[d]|..] == [c];
    OneGrown(img, img', d, c);
    hide DirGrown;
    GrowStep(img, d, cs', img'.fat, img'.disk);
    SlotCount(img, d);
    SlotCount(img', d);
    MorePer(|img.chains[d]|, img.size / SLOT_SIZE);
  }

  lemma OneGrown(img: Image, img': Image, d: nat, c: nat)
    requires d in img.chains && IsFree(img.fat, c) && c < |img.disk|
    requires img' == img.(fat := img'.fat, disk := img.disk[c := Zeros(img.size)],
             chains := img.chains[d := img.chains[d] + [c]])
    requires AgreeOff(img.fat, img'.fat, img.chains[d] + [c])
    requires FreeClusters(img'.fat) == FreeClusters(img.fat) - {c}
    ensures DirGrown(img, img', d)
  {
    assert (img.chains[d] + [c])[|img.chains[d]|..] == [c];
    assert SetOf([c]) == {c};
  }

  lemma MorePer(n: nat, per: nat)
    ensures (n + 1) * per == n * per + per
  {
  }

  lemma SlotCount(img: Image, d: nat)
    requires Storage(img) && d in img.chains
    ensures |SlotsOf(img, d)| == |img.chains[d]| * (img.size / SLOT_SIZE) && img.size / SLOT_SIZE >= 16
  {
    BytesLength(img, d);
    SlotBlocksUniform(img.disk, img.size, img.chains[d]);
    FlatLength(SlotBlocks(img.disk, img.chains[d]), img.size / SLOT_SIZE);
  }

  /** The run a scan found is room; so is the run a directory ends with, once it has grown. */
  lemma RunIsRoom(slots: seq<Slot>, more: seq<Slot>, view: View, a: nat, b: nat, needed: nat)
    requires ValidDirectory(slots, view) && FreeFrom(slots, a, b) && b <= |slots| && slots <= more
    requires forall i: nat | b <= i < |more| :: i < a + needed ==> IsFreeSlot(more[i])
    requires a + needed <= |more| && needed > 0 && (a < b || b == |slots|)
    ensures Room(more, a, needed)
  {
    hide ValidDirectory;
    assert a < |slots| ==> IsFreeSlot(slots[a]);
    RunStartClean(slots, view, a);
    assert forall p: nat | p < |slots| :: more[p] == slots[p];
  }

  /** `find_free_entry_in_cluster_dir`: room for `needed` slots, growing the directory by a
      zeroed cluster when its own slots do not suffice. */
  method FindFreeEntry(vol: Volume, first: U32, needed: nat) returns (r: Result, index: nat)
    requires vol.Valid() && first as nat in vol.views && 0 < needed <= MAX_NAME_ENTRIES
    modifies vol`chains, vol.store.disk, vol.store.table.entries
    ensures vol.Valid()
    ensures r == if old(DirectoryFull(vol.Now(), first, needed)) then NoSpace else Ok
    ensures r == NoSpace ==> vol.Now() == old(vol.Now())
    ensures Tree(vol.Now()) == old(Tree(vol.Now()))
    ensures DirGrown(old(vol.Now()), vol.Now(), first)
    ensures r == Ok ==> first as nat in vol.chains && Room(SlotsOf(vol.Now(), first), index, needed)
    ensures first as nat in old(vol.chains)
    ensures r == Ok ==> OnlyGrew(old(vol.Now()), vol.Now(), first, old(Growth(vol.Now(), first, needed)))
  {
    ghost var img := vol.Now();
    vol.DirFacts(first);
    GrowthIs(img, first, needed);
    hide *;
    var found, start := vol.store.FindRun(first, needed, vol.chains[first]);
    NotGrown(img, first);
    index := start;
    DirOnlyGrew(img, img, first, 0);
    if found {
      FoundRoom(vol, first, start, needed);
      return Ok, start;
    }
    r := GrowDirectory(vol, first, start, needed);
  }

  lemma FoundRoom(vol: Volume, d: nat, start: nat, needed: nat)
    requires vol.Valid() && d in vol.views && needed > 0 && d in vol.chains
    requires FreeFrom(vol.store.All(vol.chains[d]), start, start + needed)
             && HasRun(vol.store.All(vol.chains[d]), needed)
    ensures Room(SlotsOf(vol.Now(), d), start, needed) && !DirectoryFull(vol.Now(), d, needed)
  {
    vol.DirFacts(d);
    hide ValidDirectory, HasRun, ValidImage;
    var slots := vol.store.All(vol.chains[d]);
    RunIsRoom(slots, slots, vol.views[d], start, start + needed, needed);
  }

  method GrowDirectory(vol: Volume, first: U32, ghost start: nat, ghost needed: nat) returns (r: Result)
    requires vol.Valid() && first as nat in vol.views && 0 < needed <= MAX_NAME_ENTRIES
    requires first as nat in vol.chains
    requires var slots := vol.store.All(vol.chains[first]);
             start <= |slots| && FreeFrom(slots, start, |slots|) && |slots| < start + needed && !HasRun(slots, needed)
    modifies vol`chains, vol.store.disk, vol.store.table.entries
    ensures vol.Valid()
    ensures r == if old(DirectoryFull(vol.Now(), first, needed)) then NoSpace else Ok
    ensures r == NoSpace ==> vol.Now() == old(vol.Now())
    ensures Tree(vol.Now()) == old(Tree(vol.Now()))
    ensures DirGrown(old(vol.Now()), vol.Now(), first)
    ensures r == Ok ==> first as nat in vol.chains && Room(SlotsOf(vol.Now(), first), start, needed)
    ensures r == Ok ==> OnlyGrew(old(vol.Now()), vol.Now(), first, 1)
  {
    hide *;
    ghost var img := vol.Now();
    ghost var d: nat := first;
    ghost var cs := vol.chains[d];
    vol.DirFacts(d);
    vol.Parts();
    VolumeIs(vol, img);
    StoreParts(vol.store);
    FullMeans(img, d, needed);
    NotGrown(img, d);
    var added;
    r, added := vol.store.table.AppendClusterToChain(first, cs);
    NowLinked(vol, img);
    StoreWhole(vol.store);
    if r != Ok {
      ValidNow(vol, img);
      return;
    }
    FreeInside(img.fat, vol.store.table.View(), cs, added);
    ZeroCluster(vol.store, added);
    vol.chains := vol.chains[d := cs + [added as nat]];
    NowLinked(vol, img);
    LinkedRoom(img, vol.Now(), d, added, start, needed);
    ValidNow(vol, vol.Now());
  }

  lemma StoreParts(store: Store)
    requires store.Valid()
    ensures SECTOR_SIZE <= store.size <= MAX_CLUSTER_SIZE && store.size % SECTOR_SIZE == 0
    ensures store.disk.Length == store.table.entries.Length <= MAX_CLUSTERS && ValidDisk(store.disk[..], store.size)
  {
  }

  lemma StoreWhole(store: Store)
    requires SECTOR_SIZE <= store.size <= MAX_CLUSTER_SIZE && store.size % SECTOR_SIZE == 0
    requires store.disk.Length == store.table.entries.Length <= MAX_CLUSTERS && ValidDisk(store.disk[..], store.size)
    ensures store.Valid()
  {
  }

  lemma NowLinked(vol: Volume, img: Image)
    requires vol.store.size == img.size && vol.root as nat == img.root
    requires vol.views == img.views && vol.owner == img.owner && vol.paths == img.paths
    ensures vol.Now() == img.(fat := vol.store.table.View(), disk := vol.store.disk[..], chains := vol.chains)
  {
  }

  lemma ValidNow(vol: Volume, img: Image)
    requires vol.store.Valid() && ValidImage(img) && vol.Now() == img
    ensures vol.Valid()
  {
    hide ValidImage;
  }

  lemma FreeInside(fat: Table, fat': Table, cs: seq<nat>, c: nat)
    requires IsFree(fat, c) && AgreeOff(fat, fat', cs + [c])
    ensures c < |fat| && IsDataCluster(fat', c)
  {
  }

  lemma LinkedRoom(img: Image, img': Image, d: nat, c: nat, start: nat, needed: nat)
    requires ValidImage(img) && d in img.views && d in img.chains && 0 < needed <= MAX_NAME_ENTRIES
    requires IsFree(img.fat, c) && c < |img.disk|
    requires img' == img.(fat := img'.fat, disk := img.disk[c := Zeros(img.size)],
                          chains := img.chains[d := img.chains[d] + [c]])
    requires IsChain(img'.fat, img.chains[d] + [c]) && AgreeOff(img.fat, img'.fat, img.chains[d] + [c])
    requires FreeClusters(img'.fat) == FreeClusters(img.fat) - {c}
    requires var slots := SlotsOf(img, d); start <= |slots| && FreeFrom(slots, start, |slots|)
    ensures ValidImage(img') && Tree(img') == Tree(img) && DirGrown(img, img', d) && OnlyGrew(img, img', d, 1)
    ensures Room(SlotsOf(img', d), start, needed)
  {
    hide *;
    DirectoryGrows(img, img', d, c);
    GainedOne(img, img', d, c);
    DirOnlyGrew(img, img', d, 1);
    GrownRoom(img, img', d, start, needed);
  }

  lemma GainedOne(img: Image, img': Image, d: nat, c: nat)
    requires d in img.chains && d in img'.chains && img'.chains[d] == img.chains[d] + [c]
    ensures Gained(img, img', d) == [c]
  {
  }

  lemma FullMeans(img: Image, d: nat, needed: nat)
    requires d in img.chains
    ensures DirectoryFull(img, d, needed) <==> !HasRun(SlotsOf(img, d), needed) && FreeClusters(img.fat) == {}
  {
  }

  lemma GrownRoom(img: Image, img': Image, d: nat, start: nat, needed: nat)
    requires ValidImage(img) && d in img.views && d in img.chains && d in img'.chains && 0 < needed <= MAX_NAME_ENTRIES
    requires SlotsOf(img, d) <= SlotsOf(img', d) && |SlotsOf(img', d)| >= |SlotsOf(img, d)| + 16
    requires forall i: nat | |SlotsOf(img, d)| <= i < |SlotsOf(img', d)| :: IsEnd(SlotsOf(img', d)[i])
    requires var slots := SlotsOf(img, d); start <= |slots| && FreeFrom(slots, start, |slots|)
    ensures Room(SlotsOf(img', d), start, needed)
  {
    hide Storage, Linked, ValidDirectory;
    assert SlotsOk(img, d);
    RunIsRoom(SlotsOf(img, d), SlotsOf(img', d), img.views[d], start, |SlotsOf(img, d)|, needed);
  }

  // -------------------------------------------------------- entering a name

  /** The group that name entries form once written at `index`. */
  ghost function GroupFor(name: Str, index: nat, entries: seq<Slot>): Group
    requires entries != []
  {
    Group(index, |entries| - 1, if |entries| == 1 then Fold(name) else name, entries[|entries| - 1])
  }

  /** Attributes of a file or directory, as opposed to a label or a long-name piece. */
  predicate PlainAttributes(attributes: Byte) {
    (attributes / ATTR_VOLUME_ID) % 2 == 0
  }

  lemma GroupFits(name: Str, index: nat, entries: seq<Slot>, attributes: Byte, first: nat, size: nat, view: View)
    requires ValidName(name) && EntriesFor(entries, name, attributes, first, size, UsedNames(view))
    requires PlainAttributes(attributes)
    requires Fold(name) !in view
    ensures var g := GroupFor(name, index, entries);
            Enterable(view, name, g) && FatDirectory.Named(entries[..g.lfns], g)
    ensures forall i | 0 <= i < |entries| :: !IsFreeSlot(entries[i])
  {
    var e := entries[|entries| - 1];
    var g := GroupFor(name, index, entries);
    StoredStart(name, UsedNames(view), RawName(e), g.lfns);
    NotDotName(name);
    GroupSpells(name, entries, UsedNames(view));
    EntryLive(e, attributes);
    hide ValidName, StoredAs, FatDirectory.Named, UsedNames, LfnSlot;
    FoldIdempotent(name);
  }

  lemma EntryLive(e: Slot, attributes: Byte)
    requires Attributes(e) == attributes && PlainAttributes(attributes)
    requires RawName(e)[0] != 0 && RawName(e)[0] != DELETED && RawName(e)[0] != DOT
    ensures IsLive(e) && !IsSpecial(e) && !IsLfn(e) && !IsFreeSlot(e)
  {
    assert RawName(e)[0] == e[0];
  }

  lemma GroupSpells(name: Str, entries: seq<Slot>, used: set<Raw>)
    requires ValidName(name) && entries != [] && |entries| <= MAX_NAME_ENTRIES
    requires entries == NameSlots(name, |entries| - 1, entries[|entries| - 1])
    requires StoredAs(name, used, RawName(entries[|entries| - 1]), |entries| - 1)
    ensures forall i | 0 <= i < |entries| - 1 :: !IsFreeSlot(entries[i])
    ensures FatDirectory.Named(entries[..|entries| - 1], GroupFor(name, 0, entries))
    ensures forall index: nat :: FatDirectory.Named(entries[..|entries| - 1], GroupFor(name, index, entries))
  {
    var e := entries[|entries| - 1];
    NotDotName(name);
    if |entries| == 1 {
      LfnCountPositive(name);
      ShortNameRoundTrip(name);
      FoldNonZero(name);
    } else {
      NameSlotsArePieces(name, e);
    }
    hide ValidName, LfnSlot, FormatShort, FitsShort, ShortOf, Alias;
  }

  lemma LfnCountPositive(name: Str)
    requires ValidName(name)
    ensures LfnCount(name) > 0
  {
  }

  lemma FoldNonZero(name: Str)
    requires 0 !in name
    ensures 0 !in Fold(name)
  {
    assert forall i | 0 <= i < |name| :: name[i] in name && Fold(name)[i] == ToUpper(name[i]);
  }

  /** What a new name may refer to: nothing, a file's chain, or a fresh directory's chain that
      no other name refers to yet. */
  ghost predicate Newcomer(img: Image, d: nat, attributes: Byte, first: nat, size: nat, cs: seq<nat>, dots: View) {
    && first < 0x1_0000_0000 && size < 0x1_0000_0000 && d in img.views
    && (cs != [] ==> IsChain(img.fat, cs) && Unowned(img, cs) && cs[0] == first != 0)
    && if attributes == ATTR_DIRECTORY then
         && cs != [] && size == 0 && FreshDots(img, dots, first, d) && ValidDirectory(DirSlots(img.disk, cs), dots)
       else
         && attributes == ATTR_ARCHIVE
         && if cs == [] then first == 0 && size == 0 else 0 < size <= |cs| * img.size
  }

  ghost function NewNode(img: Image, attributes: Byte, first: nat, size: nat, cs: seq<nat>): Node {
    if attributes == ATTR_DIRECTORY then DirNode(first)
    else if size <= |ChainBytes(img.disk, cs)| then FileNode(ChainBytes(img.disk, cs)[..size]) else FileNode([])
  }

  /** The newcomer is still one after its directory has grown. */
  lemma NewcomerKept(img: Image, img': Image, d: nat, attributes: Byte, first: nat, size: nat, cs: seq<nat>, dots: View)
    requires ValidImage(img) && Newcomer(img, d, attributes, first, size, cs, dots) && DirGrown(img, img', d)
    ensures Newcomer(img', d, attributes, first, size, cs, dots)
    ensures NewNode(img', attributes, first, size, cs) == NewNode(img, attributes, first, size, cs)
  {
    hide Linked, AllSlots, ValidDirectory, IsChain;
    if cs != [] {
      OrphanKept(img, img', d, cs);
    }
    assert |img'.disk| == |img.disk|;
    BlocksFrame(img.disk, img'.disk, cs);
    DirSlotsFrame(img.disk, img'.disk, cs);
  }

  lemma NewHeadUnknown(img: Image, first: nat, cs: seq<nat>)
    requires Storage(img) && cs != [] && cs[0] == first && Unowned(img, cs)
    ensures first !in img.chains
  {
    assert cs[0] in cs;
    assert first in img.chains ==> Apart(img.chains[first], cs) && ChainAt(img.fat, img.chains, first);
    if first in img.chains {
      HeadIn(img.fat, img.chains, first);
    }
  }

  lemma EnterReady(img: Image, d: nat, name: Str, index: nat, entries: seq<Slot>, attributes: Byte,
                   first: nat, size: nat, cs: seq<nat>, dots: View, disk': Disk)
    requires ValidImage(img) && Newcomer(img, d, attributes, first, size, cs, dots)
    requires ValidName(name) && Fold(name) !in img.views[d] && d in img.chains
    requires EntriesFor(entries, name, attributes, first, size, UsedNames(img.views[d]))
    requires Room(SlotsOf(img, d), index, |entries|) && index + |entries| <= |SlotsOf(img, d)|
    requires DiskOff(img.disk, disk', img.chains[d]) && ValidDisk(disk', img.size)
    requires DirSlots(disk', img.chains[d]) == Overwrite(SlotsOf(img, d), index, entries)
    ensures var g := GroupFor(name, index, entries);
            && AttachReady(img, d, Fold(name), g, cs, dots, disk')
            && FirstCluster(g.entry) == first && Size(g.entry) == size
            && (IsDirectory(g.entry) <==> attributes == ATTR_DIRECTORY)
  {
    hide Linked, ValidDirectory, IsChain, ValidName, EntriesFor, DirSlots, Room, FirstCluster, Size, IsDirectory,
         FreshDots;
    EntriesFields(entries, name, attributes, first, size, UsedNames(img.views[d]));
    var g := GroupFor(name, index, entries);
    EntryKinds(g.entry, attributes);
    GroupFits(name, index, entries, attributes, first, size, img.views[d]);
    hide UsedNames, GroupFor;
    assert SlotsOk(img, d);
    InsertedDirectory(img, d, name, g, entries, disk');
    if cs != [] {
      NewHeadUnknown(img, first, cs);
    }
    NotDotName(name);
    PlacedPath(img, d);
  }

  lemma EntryKinds(e: Slot, attributes: Byte)
    requires Attributes(e) == attributes && (attributes == ATTR_ARCHIVE || attributes == ATTR_DIRECTORY)
    ensures IsDirectory(e) <==> attributes == ATTR_DIRECTORY
  {
  }

  lemma EntriesFields(entries: seq<Slot>, name: Str, attributes: Byte, first: nat, size: nat, used: set<Raw>)
    requires ValidName(name) && EntriesFor(entries, name, attributes, first, size, used)
    requires PlainAttributes(attributes)
    ensures entries != [] && |entries| <= MAX_NAME_ENTRIES
    ensures forall index: nat ::
              var g := GroupFor(name, index, entries);
              && g.start == index && g.lfns == |entries| - 1 && g.entry == entries[|entries| - 1]
              && FirstCluster(g.entry) == first && Size(g.entry) == size && Attributes(g.entry) == attributes
  {
    var e := entries[|entries| - 1];
    StoredStart(name, used, RawName(e), |entries| - 1);
    hide ValidName, StoredAs, NameSlots;
  }

  lemma InsertedDirectory(img: Image, d: nat, name: Str, g: Group, entries: seq<Slot>, disk': Disk)
    requires d in img.views && SlotsOk(img, d)
    requires Enterable(img.views[d], name, g) && Room(SlotsOf(img, d), g.start, g.lfns + 1)
    requires |entries| == g.lfns + 1 && entries[g.lfns] == g.entry && FatDirectory.Named(entries[..g.lfns], g)
    requires forall i | 0 <= i < |entries| :: !IsFreeSlot(entries[i])
    requires g.start + |entries| <= |SlotsOf(img, d)|
    requires DirSlots(disk', img.chains[d]) == Overwrite(SlotsOf(img, d), g.start, entries)
    ensures ValidDirectory(DirSlots(disk', img.chains[d]), img.views[d][Fold(name) := g])
  {
    hide *;
    SlotsOkMeans(img, d);
    InsertValid(SlotsOf(img, d), img.views[d], name, g, entries);
  }

  lemma SlotsOkMeans(img: Image, d: nat)
    requires d in img.views && SlotsOk(img, d)
    ensures d in img.chains && ValidDirectory(SlotsOf(img, d), img.views[d])
  {
  }

  lemma PlacedPath(img: Image, d: nat)
    requires Linked(img) && d in img.views
    ensures d in img.paths
  {
    hide AllPlaced, AllOwners, AllEntries;
  }

  /** The last part of write and mkdir: builds the name's entries, finds room for them and writes
      them.  Out of space the volume is exactly as before. */
  method EnterName(vol: Volume, dir: U32, name: Str, attributes: Byte, first: U32, size: U32,
                   ghost cs: seq<nat>, ghost dots: View) returns (r: Result)
    requires vol.Valid() && vol.SmallDirectories() && dir as nat in vol.views
    requires ValidName(name) && Fold(name) !in vol.views[dir]
    requires Newcomer(vol.Now(), dir, attributes, first, size, cs, dots)
    modifies vol, vol.store.disk, vol.store.table.entries
    ensures vol.Valid()
    ensures r == if old(DirectoryFull(vol.Now(), dir, SlotsNeeded(vol.Now(), dir, name))) then NoSpace else Ok
    ensures r == NoSpace ==> vol.Now() == old(vol.Now())
    ensures r == Ok ==>
              (dir as nat in old(Tree(vol.Now())) && Tree(vol.Now()) ==
                 AttachedTree(old(Tree(vol.Now())), dir, Fold(name),
                   old(NewNode(vol.Now(), attributes, first, size, cs))))
    ensures dir as nat in old(vol.chains)
    ensures r == Ok ==>
              && HeldBy(vol.Now(), dir, Fold(name)) == cs
              && OnlyGrew(old(vol.Now()), vol.Now(), dir,
                   old(Growth(vol.Now(), dir, SlotsNeeded(vol.Now(), dir, name))))
  {
    ghost var img := vol.Now();
    vol.DirFacts(dir);
    vol.Parts();
    assert |vol.views[dir]| + 3 < ALIAS_LIMIT;
    hide *;
    var entries;
    r, entries := BuildNameEntries(vol.store, dir, name, attributes, first, size, None, vol.chains[dir],
      vol.views[dir]);
    NeededSlots(vol, dir, name, entries, attributes, first, size);
    var index;
    r, index := FindFreeEntry(vol, dir, |entries|);
    if r != Ok {
      return;
    }
    NewcomerGrown(vol, img, dir, attributes, first, size, cs, dots);
    ghost var grown := vol.Now();
    WriteName(vol, dir, name, index, entries, attributes, first, size, cs, dots);
    GrewKeeps(img, grown, vol.Now(), dir, Growth(img, dir, |entries|));
  }

  lemma GrewKeeps(img: Image, grown: Image, img': Image, d: nat, n: nat)
    requires OnlyGrew(img, grown, d, n) && img'.fat == grown.fat && SameChains(grown, img')
    ensures OnlyGrew(img, img', d, n)
  {
    hide FreeClusters;
  }

  ghost predicate SameChains(img: Image, img': Image) {
    forall h | h in img.chains :: h in img'.chains && img'.chains[h] == img.chains[h]
  }

  lemma NeededSlots(vol: Volume, d: nat, name: Str, entries: seq<Slot>, attributes: Byte, first: nat, size: nat)
    requires d in vol.views && EntriesFor(entries, name, attributes, first, size, Others(vol.views[d], None))
    ensures EntriesFor(entries, name, attributes, first, size, UsedNames(vol.views[d]))
    ensures |entries| == SlotsNeeded(vol.Now(), d, name) && 0 < |entries| <= MAX_NAME_ENTRIES
  {
    hide StoredAs, NameSlots, PiecesFor, UsedNames, RawName, FirstCluster, Size, Attributes;
  }

  lemma NewcomerGrown(vol: Volume, img: Image, d: nat, attributes: Byte, first: nat, size: nat, cs: seq<nat>,
                      dots: View)
    requires ValidImage(img) && Newcomer(img, d, attributes, first, size, cs, dots) && DirGrown(img, vol.Now(), d)
    ensures Newcomer(vol.Now(), d, attributes, first, size, cs, dots) && vol.views == img.views
    ensures NewNode(vol.Now(), attributes, first, size, cs) == NewNode(img, attributes, first, size, cs)
  {
    NewcomerKept(img, vol.Now(), d, attributes, first, size, cs, dots);
  }

  lemma EnteredNode(img: Image, d: nat, k: Key, g: Group, cs: seq<nat>, dots: View, disk': Disk, attributes: Byte,
                    first: nat, size: nat)
    requires ValidImage(img) && Newcomer(img, d, attributes, first, size, cs, dots) && d in img.chains
    requires AttachReady(img, d, k, g, cs, dots, disk')
    requires FirstCluster(g.entry) == first && Size(g.entry) == size
             && (IsDirectory(g.entry) <==> attributes == ATTR_DIRECTORY)
    ensures NodeOf(Attached(img, d, k, g, cs, dots).(disk := disk'), g.entry) == NewNode(img, attributes, first, size,
            cs)
  {
    hide Storage, AllSlots, AllPlaced, AllOwners, AllEntries, ValidDirectory, IsChain, FirstCluster, Size, IsDirectory,
         FreshDots;
    var img' := Attached(img, d, k, g, cs, dots).(disk := disk');
    if cs != [] {
      assert Apart(img.chains[d], cs);
      ApartSymmetric(img.chains[d], cs);
      BlocksFrame(img.disk, disk', cs);
      assert attributes == ATTR_DIRECTORY || (first in img'.chains && img'.chains[first] == cs);
    } else {
      assert 0 !in img'.chains;
      EmptyChain(img.disk);
    }
  }

  lemma EmptyChain(disk: Disk)
    ensures ChainBytes(disk, []) == []
  {
  }

  method WriteName(vol: Volume, dir: U32, name: Str, index: nat, entries: seq<Slot>, ghost attributes: Byte,
                   ghost first: nat, ghost size: nat, ghost cs: seq<nat>, ghost dots: View)
    requires vol.Valid() && dir as nat in vol.views && dir as nat in vol.chains
    requires ValidName(name) && Fold(name) !in vol.views[dir]
    requires Newcomer(vol.Now(), dir, attributes, first, size, cs, dots)
    requires EntriesFor(entries, name, attributes, first, size, UsedNames(vol.views[dir]))
    requires Room(SlotsOf(vol.Now(), dir), index, |entries|)
    modifies vol, vol.store.disk
    ensures vol.Valid()
    ensures dir as nat in old(Tree(vol.Now())) && Tree(vol.Now()) ==
              AttachedTree(old(Tree(vol.Now())), dir, Fold(name), old(NewNode(vol.Now(), attributes, first, size, cs)))
    ensures vol.Now().fat == old(vol.Now().fat) && SameChains(old(vol.Now()), vol.Now())
    ensures HeldBy(vol.Now(), dir, Fold(name)) == cs
  {
    hide *;
    ghost var img := vol.Now();
    ghost var d: nat := dir;
    vol.DirFacts(d);
    vol.Parts();
    VolumeIs(vol, img);
    RoomInside(SlotsOf(img, d), index, |entries|);
    var r := vol.store.WriteEntrySpan(dir, index, entries, vol.chains[dir]);
    ghost var disk' := vol.store.disk[..];
    DiskIsValid(vol.store, vol.chains[d]);
    OffClusters(img.disk, disk', vol.chains[d]);
    CommitEntered(img, d, name, index, entries, attributes, first, size, cs, dots, disk');
    vol.Adopt(Attached(img, d, Fold(name), GroupFor(name, index, entries), cs, dots).(disk := disk'));
  }

  lemma VolumeIs(vol: Volume, img: Image)
    requires vol.store.Valid()
    requires vol.Now() == img || vol.Now() == img.(fat := vol.store.table.View(), disk := vol.store.disk[..])
    ensures vol.store.size == img.size && vol.root as nat == img.root
            && vol.store.disk.Length == vol.store.table.entries.Length
    ensures vol.chains == img.chains && vol.views == img.views && vol.owner == img.owner && vol.paths == img.paths
    ensures ValidDisk(vol.store.disk[..], img.size)
    ensures vol.Now() == img ==> img.fat == vol.store.table.View() && img.disk == vol.store.disk[..]
    ensures forall cs :: vol.store.Holds(cs) <==> IsChain(vol.store.table.View(), cs)
    ensures forall cs :: vol.store.All(cs) == DirSlots(vol.store.disk[..], cs)
  {
    hide IsChain, DirSlots;
  }

  lemma DiskIsValid(store: Store, cs: seq<nat>)
    requires store.Valid()
    ensures ValidDisk(store.disk[..], store.size) && store.All(cs) == DirSlots(store.disk[..], cs)
    ensures store.Holds(cs) <==> IsChain(store.table.View(), cs)
  {
  }

  lemma NewcomerPlain(img: Image, d: nat, attributes: Byte, first: nat, size: nat, cs: seq<nat>, dots: View)
    requires Newcomer(img, d, attributes, first, size, cs, dots)
    ensures PlainAttributes(attributes)
  {
    hide IsChain, Unowned, ValidDirectory, FreshDots;
  }

  lemma OffClusters(disk: Disk, disk': Disk, touched: seq<nat>)
    requires |disk'| == |disk| && forall c | 0 <= c < |disk| && c !in touched :: disk'[c] == disk[c]
    ensures DiskOff(disk, disk', touched)
  {
  }

  lemma CommitEntered(img: Image, d: nat, name: Str, index: nat, entries: seq<Slot>, attributes: Byte,
                      first: nat, size: nat, cs: seq<nat>, dots: View, disk': Disk)
    requires ValidImage(img) && Newcomer(img, d, attributes, first, size, cs, dots)
    requires ValidName(name) && d in img.views && Fold(name) !in img.views[d] && d in img.chains
    requires EntriesFor(entries, name, attributes, first, size, UsedNames(img.views[d]))
    requires Room(SlotsOf(img, d), index, |entries|) && index + |entries| <= |SlotsOf(img, d)|
    requires DiskOff(img.disk, disk', img.chains[d]) && ValidDisk(disk', img.size)
    requires DirSlots(disk', img.chains[d]) == Overwrite(SlotsOf(img, d), index, entries)
    ensures entries != []
    ensures var img' := Attached(img, d, Fold(name), GroupFor(name, index, entries), cs, dots).(disk := disk');
            && ValidImage(img') && img'.size == img.size && img'.root == img.root && img'.fat == img.fat
            && d in Tree(img) && Tree(img') == AttachedTree(Tree(img), d, Fold(name),
              NewNode(img, attributes, first, size, cs))
            && SameChains(img, img') && HeldBy(img', d, Fold(name)) == cs
  {
    hide *;
    NewcomerPlain(img, d, attributes, first, size, cs, dots);
    EntriesFields(entries, name, attributes, first, size, UsedNames(img.views[d]));
    var g := GroupFor(name, index, entries);
    EnterReady(img, d, name, index, entries, attributes, first, size, cs, dots, disk');
    EnteredNode(img, d, Fold(name), g, cs, dots, disk', attributes, first, size);
    AttachStep(img, d, Fold(name), g, cs, dots, disk');
    AttachedSize(img, d, Fold(name), g, cs, dots);
    ValidParts(img);
    NewcomerHead(img, d, attributes, first, size, cs, dots);
    AttachedHolds(img, d, Fold(name), g, cs, dots, disk');
    InTree(img, d);
  }

  lemma NewcomerHead(img: Image, d: nat, attributes: Byte, first: nat, size: nat, cs: seq<nat>, dots: View)
    requires ValidImage(img) && Newcomer(img, d, attributes, first, size, cs, dots)
    ensures first !in img.chains && (if cs == [] then first == 0 else first != 0)
  {
    ViewIsChain(img, d);
    NoZeroHead(img);
    hide Linked, AllSlots, Storage, IsChain, ValidDirectory, FreshDots, Unowned;
    if cs != [] {
      NewHeadUnknown(img, first, cs);
    }
  }

  lemma NoZeroHead(img: Image)
    requires Linked(img)
    ensures 0 !in img.chains
  {
    hide AllPlaced, AllOwners, AllEntries;
  }

  lemma AttachedHolds(img: Image, d: nat, k: Key, g: Group, cs: seq<nat>, dots: View, disk': Disk)
    requires d in img.views && FirstCluster(g.entry) !in img.chains && (cs == [] <==> FirstCluster(g.entry) == 0)
    requires IsDirectory(g.entry) ==> FirstCluster(g.entry) != d
    ensures var img' := Attached(img, d, k, g, cs, dots).(disk := disk');
            SameChains(img, img') && HeldBy(img', d, k) == cs
  {
    hide FirstCluster, IsDirectory;
  }

  lemma AttachedSize(img: Image, d: nat, k: Key, g: Group, cs: seq<nat>, dots: View)
    requires d in img.views
    ensures var img' := Attached(img, d, k, g, cs, dots);
            img'.size == img.size && img'.root == img.root
            && img'.fat == img.fat
  {
    hide FirstCluster, IsDirectory;
  }

  lemma InTree(img: Image, d: nat)
    ensures d in img.views <==> d in Tree(img)
  {
    hide Listing;
  }

  lemma RoomInside(slots: seq<Slot>, a: nat, n: nat)
    requires Room(slots, a, n)
    ensures a + n <= |slots|
  {
  }

  /** How many slots a name takes in a directory. */
  ghost function SlotsNeeded(img: Image, d: nat, name: Str): nat
    requires d in img.views
  {
    PiecesFor(name, UsedNames(img.views[d])) + 1
  }
}
