/** The image builder at work: clusters handed out depth first, chains linked, directories and
    files written. */
module ImageBuilder {
  import opened Bytes
  import opened FatSlots
  import opened FatTables
  import opened FatBlocks
  import opened FatDirectory
  import opened FatStore
  import opened FatData
  import opened FatImage
  import opened FatMakeDir
  import opened BuilderNames
  import opened BuilderTree
  import opened BuilderRegistry
  import opened BuilderImage

  const EOC: U32 := 0x0FFF_FFFF

  /** The tree with the clusters its nodes were given. */
  datatype Placed =
    | PlacedFile(name: Str, data: seq<Byte>, clusters: seq<nat>)
    | PlacedFolder(name: Str, children: seq<Placed>, clusters: seq<nat>)

  function Laid(item: Item, isRoot: bool, at: nat): (p: Placed)
    ensures p.clusters == Clusters(item, isRoot, at) && p.name == item.name
  {
    match item
    case File(name, data) => PlacedFile(name, data, Clusters(item, isRoot, at))
    case Folder(name, children) => PlacedFolder(name, LaidAll(children, at + Need(item, isRoot)),
      Clusters(item, isRoot, at))
  }

  function LaidAll(items: seq<Item>, at: nat): (ps: seq<Placed>)
    ensures |ps| == |items|
  {
    if items == [] then [] else [Laid(items[0], false, at)] + LaidAll(items[1..], at + Total(items[0], false))
  }

  lemma {:induction false} LaidChild(items: seq<Item>, at: nat, i: nat)
    requires i < |items|
    ensures LaidAll(items, at)[i] == Laid(items[i], false, StartOf(items, at, i))
    decreases i
  {
    hide Laid, Total;
    if i > 0 { LaidChild(items[1..], at + Total(items[0], false), i - 1); }
  }

  lemma {:induction false} StartNext(items: seq<Item>, at: nat, i: nat)
    requires i < |items|
    ensures StartOf(items, at, i + 1) == StartOf(items, at, i) + Total(items[i], false)
    decreases i
  {
    hide Total;
    if i > 0 { StartNext(items[1..], at + Total(items[0], false), i - 1); }
  }

  lemma {:induction false} StartEnd(items: seq<Item>, at: nat, i: nat)
    requires i <= |items|
    ensures at <= StartOf(items, at, i) <= at + TotalOf(items) && StartOf(items, at, |items|) == at + TotalOf(items)
    decreases |items|
  {
    hide Total;
    if items != [] {
      StartEnd(items[1..], at + Total(items[0], false), if i > 0 then i - 1 else 0);
    }
  }

  // ------------------------------------------------------------- allocation

  ghost predicate NamesOk(items: seq<Item>) {
    && (forall i: nat | i < |items| :: ShortName11(items[i].name).Some?)
    && forall i: nat, j: nat | i < j < |items| :: ShortName11(items[i].name) != ShortName11(items[j].name)
  }

  lemma {:induction false} NameableMeans(items: seq<Item>)
    ensures NameableAll(items) <==> NamesOk(items) && forall i: nat | i < |items| :: Nameable(items[i])
    decreases |items|
  {
    hide ShortName11, Nameable;
    if items != [] {
      var rest := items[1..];
      NameableMeans(rest);
      assert forall i: nat | i < |rest| :: rest[i] == items[i + 1];
      if NamesOk(rest) && (forall i: nat | i < |rest| :: Nameable(rest[i])) && Nameable(items[0])
        && ShortName11(items[0].name).Some?
         && (forall i | 1 <= i < |items| :: ShortName11(items[i].name) != ShortName11(items[0].name)) {
        forall i: nat | i < |items| ensures ShortName11(items[i].name).Some? && Nameable(items[i]) {
          assert i > 0 ==> items[i] == rest[i - 1];
        }
        forall i: nat, j: nat | i < j < |items| ensures ShortName11(items[i].name) != ShortName11(items[j].name) {
          assert i > 0 ==> items[i] == rest[i - 1] && items[j] == rest[j - 1];
        }
      }
    }
  }

  /** The check for names that do not fit or occur twice. */
  method CheckNames(items: seq<Item>) returns (ok: bool)
    ensures ok <==> NamesOk(items)
  {
    hide ShortName11;
    var seen: set<Raw> := {};
    for i := 0 to |items|
      invariant forall j: nat | j < i :: ShortName11(items[j].name).Some? && ShortName11(items[j].name).value in seen
      invariant forall r | r in seen :: exists j: nat :: j < i && ShortName11(items[j].name) == Some(r)
      invariant forall j: nat, k: nat | j < k < i :: ShortName11(items[j].name) != ShortName11(items[k].name)
    {
      var short := ShortName11(items[i].name);
      if short.None? {
        return false;
      }
      if short.value in seen {
        return false;
      }
      seen := seen + {short.value};
    }
    ok := true;
  }

  /** `allocate_clusters`: each folder's clusters, then its children's in turn; refused exactly when
      a name is, or when the tree does not fit. */
  method Allocate(item: Item, isRoot: bool, next: nat, total: nat) returns (r: Option<(Placed, nat)>)
    requires next <= total
    ensures r.Some? <==> Nameable(item) && next + Total(item, isRoot) <= total
    ensures r.Some? ==> r.value == (Laid(item, isRoot, next), next + Total(item, isRoot))
    decreases item
  {
    hide NameableAll, ShortName11;
    var count := Need(item, isRoot);
    match item
    case File(name, data) =>
      if next + count > total {
        return None;
      }
      r := Some((PlacedFile(name, data, Stretch(next, count)), next + count));
    case Folder(name, children) =>
      if next + count > total {
        return None;
      }
      NameableMeans(children);
      var ok := CheckNames(children);
      if !ok {
        return None;
      }
      var rest := AllocateAll(children, next + count, total);
      if rest.None? {
        return None;
      }
      r := Some((PlacedFolder(name, rest.value.0, Stretch(next, count)), rest.value.1));
  }

  /** The loop over a folder's children. */
  method AllocateAll(items: seq<Item>, at: nat, total: nat) returns (r: Option<(seq<Placed>, nat)>)
    requires at <= total
    ensures r.Some? <==> (forall i: nat | i < |items| :: Nameable(items[i])) && at + TotalOf(items) <= total
    ensures r.Some? ==> r.value == (LaidAll(items, at), at + TotalOf(items))
    decreases items
  {
    hide Nameable, Laid, LaidAll, Total, TotalOf, StartOf;
    var placed, next := [], at;
    StartEnd(items, at, 0);
    StartZero(items, at);
    for i := 0 to |items|
      invariant placed == LaidAll(items, at)[..i] && next == StartOf(items, at, i) <= total
      invariant forall j: nat | j < i :: Nameable(items[j])
    {
      StartNext(items, at, i);
      StartEnd(items, at, i + 1);
      LaidChild(items, at, i);
      var one := Allocate(items[i], false, next, total);
      if one.None? {
        return None;
      }
      placed, next := placed + [one.value.0], one.value.1;
    }
    assert LaidAll(items, at)[..|items|] == LaidAll(items, at);
    r := Some((placed, next));
  }

  lemma StartZero(items: seq<Item>, at: nat)
    ensures StartOf(items, at, 0) == at
  {
  }

  // ------------------------------------------------------------------ chains

  /** `set_fat_chain`: each cluster points to the next, the last to the end mark. */
  method SetFatChain(fat: array<U32>, chain: seq<nat>) returns (ok: bool)
    requires NoDuplicates(chain) && fat.Length <= MAX_CLUSTERS && forall c | c in chain :: c < 0x1_0000_0000
    modifies fat
    ensures ok <==> forall i: nat | i < |chain| :: 2 <= chain[i] < fat.Length
    ensures AgreeOff(old(fat[..]), fat[..], chain)
    ensures ok && chain != [] ==> IsChain(fat[..], chain)
  {
    ok := true;
    for index := 0 to |chain|
      invariant ok && forall i: nat | i < index :: 2 <= chain[i] < fat.Length
      invariant forall c: nat | c < fat.Length && c !in chain :: fat[c] == old(fat[c])
      invariant forall i: nat | i < index ::
                fat[chain[i]] as nat == if i == |chain| - 1 then EOC as nat else chain[i + 1]
    {
      var cluster := chain[index];
      if cluster <= 1 || cluster >= fat.Length {
        return false;
      }
      assert index + 1 < |chain| ==> chain[index + 1] in chain;
      fat[cluster] := if index == |chain| - 1 then EOC else chain[index + 1];
    }
    if chain != [] {
      forall i: nat | i < |chain| ensures LinkAt(fat[..], chain, i) {
      }
    }
  }

  /** Every registered chain is there. */
  ghost predicate Chained(reg: Registry, fat: Table) {
    forall h | h in reg.chains :: IsChain(fat, reg.chains[h])
  }

  /** Nothing outside the clusters from `lo` to `hi` changed. */
  ghost predicate OnlyIn<T>(before: seq<T>, after: seq<T>, lo: nat, hi: nat) {
    |after| == |before| && forall c: nat | c < |before| && !(lo <= c < hi) :: after[c] == before[c]
  }

  lemma OnlyInTwice<T>(a: seq<T>, b: seq<T>, c: seq<T>, lo: nat, mid: nat, hi: nat)
    requires OnlyIn(a, b, lo, mid) && OnlyIn(b, c, mid, hi) && lo <= mid <= hi
    ensures OnlyIn(a, c, lo, hi)
  {
  }

  lemma ChainedStays(reg: Registry, lo: nat, mid: nat, fat: Table, fat': Table, hi: nat)
    requires Ranged(reg, lo, mid) && Chained(reg, fat) && OnlyIn(fat, fat', mid, hi)
    ensures Chained(reg, fat')
  {
    forall h | h in reg.chains ensures IsChain(fat', reg.chains[h]) {
      var cs := reg.chains[h];
      assert ChainIn(reg, lo, mid, h);
      forall i: nat | i < |cs| ensures LinkAt(fat', cs, i) {
        assert LinkAt(fat, cs, i);
      }
    }
  }

  lemma ChainedJoin(a: Registry, b: Registry, fat: Table)
    requires Chained(a, fat) && Chained(b, fat)
    ensures Chained(Join(a, b), fat)
  {
    hide IsChain;
  }

  lemma StretchDistinct(at: nat, n: nat, fat: Table, fat': Table)
    ensures NoDuplicates(Stretch(at, n)) && forall c | c in Stretch(at, n) :: at <= c < at + n
    ensures AgreeOff(fat, fat', Stretch(at, n)) ==> OnlyIn(fat, fat', at, at + n)
  {
    forall c: nat | at <= c < at + n ensures c in Stretch(at, n) {
      assert Stretch(at, n)[c - at] == c;
    }
  }

  lemma OwnChained(item: Item, isRoot: bool, at: nat, up: nat, key: Key, path: seq<Key>, fat: Table)
    requires FitsAt(item, isRoot, at) && up < 0x1_0000_0000
    requires Need(item, isRoot) > 0 ==> IsChain(fat, Clusters(item, isRoot, at))
    ensures Chained(Own(item, isRoot, at, up, key, path), fat)
  {
    hide FitsAt, FolderView, IsChain, Clusters, Need;
  }

  /** `register_chains` */
  method RegisterChains(fat: array<U32>, p: Placed, ghost item: Item, ghost isRoot: bool, ghost at: nat, ghost up: nat,
                        ghost key: Key, ghost path: seq<Key>)
    requires FitsAt(item, isRoot, at) && up < 0x1_0000_0000 && p == Laid(item, isRoot, at) && (isRoot ==> item.Folder?)
    requires at + Total(item, isRoot) <= fat.Length <= MAX_CLUSTERS
    modifies fat
    ensures Chained(Reg(item, isRoot, at, up, key, path), fat[..])
    ensures OnlyIn(old(fat[..]), fat[..], at, at + Total(item, isRoot))
    decreases p
  {
    hide *;
    FitsBound(item, isRoot, at);
    RegUnfolds(item, isRoot, at, up, key, path);
    LaidKinds(item, isRoot, at);
    ghost var before := fat[..];
    StretchDistinct(at, Need(item, isRoot), fat[..], fat[..]);
    ClustersAre(item, isRoot, at);
    var ok := SetFatChain(fat, p.clusters);
    StretchDistinct(at, Need(item, isRoot), before, fat[..]);
    OwnChained(item, isRoot, at, up, key, path, fat[..]);
    if p.PlacedFolder? {
      FolderFits(item, isRoot, at);
      ghost var mid, first := at + Need(item, isRoot), fat[..];
      RegisterAll(fat, p.children, item.children, mid, at, path);
      OwnRanged(item, isRoot, at, up, key, path);
      ChainedStays(Own(item, isRoot, at, up, key, path), at, mid, first, fat[..], mid + TotalOf(item.children));
      ChainedJoin(Own(item, isRoot, at, up, key, path), RegAll(item.children, mid, at, path), fat[..]);
      OnlyInTwice(before, first, fat[..], at, mid, mid + TotalOf(item.children));
    }
  }

  lemma FitsBound(item: Item, isRoot: bool, at: nat)
    requires FitsAt(item, isRoot, at)
    ensures at >= 2 && at + Total(item, isRoot) <= 524288 && MAX_CLUSTERS == 524288
            && Need(item, isRoot) <= Total(item, isRoot)
  {
    hide Nameable, Total, Need;
  }

  lemma LaidKinds(item: Item, isRoot: bool, at: nat)
    ensures Laid(item, isRoot, at).PlacedFolder? <==> item.Folder?
    ensures item.Folder? ==> Laid(item, isRoot, at).children == LaidAll(item.children, at + Need(item, isRoot))
    ensures item.File? ==> Laid(item, isRoot, at).data == item.data
  {
    hide LaidAll, Need, Clusters;
  }

  lemma ClustersAre(item: Item, isRoot: bool, at: nat)
    ensures Clusters(item, isRoot, at) == Stretch(at, Need(item, isRoot))
  {
    hide Need;
  }

  /** The loop over a folder's children. */
  method RegisterAll(fat: array<U32>, ps: seq<Placed>, ghost items: seq<Item>, ghost at: nat, ghost dir: nat,
                     ghost path: seq<Key>)
    requires Fitting(items, at) && at >= 2 && dir < 0x1_0000_0000 && ps == LaidAll(items, at)
    requires at + TotalOf(items) <= fat.Length <= MAX_CLUSTERS
    modifies fat
    ensures Chained(RegAll(items, at, dir, path), fat[..])
    ensures OnlyIn(old(fat[..]), fat[..], at, at + TotalOf(items))
    decreases ps
  {
    hide *;
    RegAllUnfolds(items, at, dir, path);
    LaidUnfolds(items, at);
    ghost var before := fat[..];
    if ps == [] {
      NothingChained(fat[..]);
      NothingChanged(before, at);
      return;
    }
    ghost var key, mid := KeyOf(items[0].name), at + Total(items[0], false);
    RegisterChains(fat, ps[0], items[0], false, at, dir, key, path + [key]);
    ghost var first := fat[..];
    RegisterAll(fat, ps[1..], items[1..], mid, dir, path);
    RegRanged(items[0], false, at, dir, key, path + [key]);
    ChainedStays(Reg(items[0], false, at, dir, key, path + [key]), at, mid, first, fat[..], mid + TotalOf(items[1..]));
    ChainedJoin(Reg(items[0], false, at, dir, key, path + [key]), RegAll(items[1..], mid, dir, path), fat[..]);
    OnlyInTwice(before, first, fat[..], at, mid, mid + TotalOf(items[1..]));
  }

  lemma LaidUnfolds(items: seq<Item>, at: nat)
    ensures LaidAll(items, at) == [] <==> items == []
    ensures items != [] ==>
              LaidAll(items, at)[0] == Laid(items[0], false, at)
                && LaidAll(items, at)[1..] == LaidAll(items[1..], at + Total(items[0], false))
  {
    hide Laid, Total;
  }

  lemma NothingChained(fat: Table)
    ensures Chained(Nothing, fat)
  {
  }

  lemma NothingChanged<T>(s: seq<T>, at: nat)
    ensures OnlyIn(s, s, at, at + 0)
  {
  }

  // -------------------------------------------------------------------- data

  function Smaller(a: nat, b: nat): nat { if a < b then a else b }

  /** The `i`-th sector's worth of some data. */
  function Chunk(data: seq<Byte>, i: nat): (c: seq<Byte>)
    ensures |c| <= SECTOR
  {
    data[Smaller(i * SECTOR, |data|)..Smaller(i * SECTOR + SECTOR, |data|)]
  }

  /** A sector whose start is overwritten. */
  function Patched(block: seq<Byte>, chunk: seq<Byte>): seq<Byte>
    requires |chunk| <= |block|
  {
    chunk + block[|chunk|..]
  }

  ghost predicate PatchedAt(before: Disk, after: Disk, cs: seq<nat>, data: seq<Byte>, i: nat)
    requires i < |cs|
  {
    var c := cs[i];
    c < |before| && c < |after| && |before[c]| == SECTOR && after[c] == Patched(before[c], Chunk(data, i))
  }

  /** `write_cluster_chain`: the data is cut into sectors, one for each cluster. */
  method WriteClusterChain(disk: array<seq<Byte>>, chain: seq<nat>, data: seq<Byte>) returns (ok: bool)
    requires NoDuplicates(chain) && ValidDisk(disk[..], SECTOR) && ClustersOn(disk[..], chain)
    modifies disk
    ensures ok <==> chain == [] || |data| <= |chain| * SECTOR
    ensures !ok ==> disk[..] == old(disk[..])
    ensures ok ==> forall i: nat | i < |chain| :: PatchedAt(old(disk[..]), disk[..], chain, data, i)
    ensures ValidDisk(disk[..], SECTOR) && forall c: nat | c < disk.Length && c !in chain :: disk[c] == old(disk[c])
  {
    if chain == [] {
      return true;
    }
    if |data| > |chain| * SECTOR {
      return false;
    }
    ghost var before := disk[..];
    hide Chunk;
    for i := 0 to |chain|
      invariant forall c: nat | c < disk.Length :: |disk[c]| == SECTOR
      invariant forall c: nat | c < disk.Length && c !in chain :: disk[c] == before[c]
      invariant forall j: nat | i <= j < |chain| :: disk[chain[j]] == before[chain[j]]
      invariant forall j: nat | j < i :: disk[chain[j]] == Patched(before[chain[j]], Chunk(data, j))
    {
      var cluster, chunk := chain[i], Chunk(data, i);
      disk[cluster] := Patched(disk[cluster], chunk);
    }
    ok := true;
  }

  /** A stretch of zeroed sectors. */
  ghost predicate Blank(disk: Disk, lo: nat, hi: nat) {
    hi <= |disk| && forall c: nat | lo <= c < hi :: disk[c] == Zeros(SECTOR)
  }

  /** The chain now starts with the data. */
  lemma DataHeld(before: Disk, disk: Disk, cs: seq<nat>, data: seq<Byte>)
    requires ValidDisk(disk, SECTOR) && ClustersOn(disk, cs) && |data| <= |cs| * SECTOR
    requires forall i: nat | i < |cs| :: PatchedAt(before, disk, cs, data, i)
    ensures |ChainBytes(disk, cs)| == |cs| * SECTOR && ChainBytes(disk, cs)[..|data|] == data
  {
    ChainBytesLength(disk, SECTOR, cs);
    hide ChainBytes, ValidDisk, PatchedAt;
    forall p: nat | p < |data| ensures ChainBytes(disk, cs)[p] == data[p] {
      var i := p / SECTOR;
      SectorOf(p, |cs|);
      assert PatchedAt(before, disk, cs, data, i);
      ByteWindow(disk, SECTOR, cs, i);
      ByteHeld(before, disk, cs, data, p);
    }
  }

  lemma SectorOf(p: nat, n: nat)
    requires p < n * SECTOR
    ensures p / SECTOR < n && p / SECTOR * SECTOR <= p < p / SECTOR * SECTOR + SECTOR
  {
  }

  lemma ByteHeld(before: Disk, disk: Disk, cs: seq<nat>, data: seq<Byte>, p: nat)
    requires p < |data| <= |cs| * SECTOR && p / SECTOR < |cs| && PatchedAt(before, disk, cs, data, p / SECTOR)
    requires var i := p / SECTOR;
             cs[i] < |disk| && |ChainBytes(disk, cs)| == |cs| * SECTOR && i * SECTOR + SECTOR <= |cs| * SECTOR
             && ChainBytes(disk, cs)[i * SECTOR..i * SECTOR + SECTOR] == disk[cs[i]]
    ensures ChainBytes(disk, cs)[p] == data[p]
  {
    var i := p / SECTOR;
    SectorOf(p, |cs|);
    hide ChainBytes;
    assert disk[cs[i]][p - i * SECTOR] == ChainBytes(disk, cs)[p];
    ChunkByte(data, i, p);
  }

  lemma ChunkByte(data: seq<Byte>, i: nat, p: nat)
    requires i * SECTOR <= p < i * SECTOR + SECTOR && p < |data|
    ensures p - i * SECTOR < |Chunk(data, i)| && Chunk(data, i)[p - i * SECTOR] == data[p]
  {
  }

  /** Whole sectors written as a directory read back as its slots. */
  lemma SlotsHeld(before: Disk, disk: Disk, cs: seq<nat>, payload: seq<Byte>)
    requires ValidDisk(disk, SECTOR) && ClustersOn(disk, cs) && |payload| == |cs| * SECTOR
    requires forall i: nat | i < |cs| :: PatchedAt(before, disk, cs, payload, i)
    ensures DirSlots(disk, cs) == Slots(payload)
  {
    SlotCounts(|cs|);
    if cs != [] { Window(disk, SECTOR, cs, 0); } else { NoSlots(disk); }
    hide DirSlots, ValidDisk, PatchedAt, Slots;
    forall p: nat | p < |cs| * PER_SECTOR ensures DirSlots(disk, cs)[p] == Slots(payload)[p] {
      var i := p / PER_SECTOR;
      SlotSector(p, |cs|);
      assert PatchedAt(before, disk, cs, payload, i);
      Window(disk, SECTOR, cs, i);
      SlotHeld(before, disk, cs, payload, p);
    }
    SlotLength(payload, |cs|);
  }

  lemma SlotCounts(n: nat)
    ensures n * (SECTOR / SLOT_SIZE) == n * PER_SECTOR && n * SECTOR / SLOT_SIZE == n * PER_SECTOR
  {
  }

  lemma NoSlots(disk: Disk)
    ensures DirSlots(disk, []) == []
  {
  }

  lemma SlotLength(payload: seq<Byte>, n: nat)
    requires |payload| == n * SECTOR
    ensures |Slots(payload)| == n * PER_SECTOR
  {
  }

  lemma SlotSector(p: nat, n: nat)
    requires p < n * PER_SECTOR
    ensures p / PER_SECTOR < n && p / PER_SECTOR * PER_SECTOR <= p < p / PER_SECTOR * PER_SECTOR + PER_SECTOR
  {
  }

  lemma SlotHeld(before: Disk, disk: Disk, cs: seq<nat>, payload: seq<Byte>, p: nat)
    requires p < |cs| * PER_SECTOR && |payload| == |cs| * SECTOR && p / PER_SECTOR < |cs|
    requires PatchedAt(before, disk, cs, payload, p / PER_SECTOR)
    requires var i := p / PER_SECTOR;
             && |DirSlots(disk, cs)| == |cs| * (SECTOR / SLOT_SIZE) && cs[i] < |disk|
             && i * (SECTOR / SLOT_SIZE) + SECTOR / SLOT_SIZE <= |DirSlots(disk, cs)|
             && DirSlots(disk, cs)[i * (SECTOR / SLOT_SIZE)..i * (SECTOR / SLOT_SIZE) + SECTOR / SLOT_SIZE] ==
               Slots(disk[cs[i]])
    ensures p < |DirSlots(disk, cs)| && p < |Slots(payload)| && DirSlots(disk, cs)[p] == Slots(payload)[p]
  {
    var i := p / PER_SECTOR;
    SlotSector(p, |cs|);
    SlotCounts(|cs|);
    SlotLength(payload, |cs|);
    WholeChunk(before, disk, cs, payload, i);
    SlotOfChunk(payload, i, p);
    hide DirSlots, Slots, PatchedAt, Chunk;
    assert Slots(disk[cs[i]])[p - i * PER_SECTOR] == DirSlots(disk, cs)[p];
  }

  lemma WholeChunk(before: Disk, disk: Disk, cs: seq<nat>, payload: seq<Byte>, i: nat)
    requires i < |cs| && |payload| == |cs| * SECTOR && PatchedAt(before, disk, cs, payload, i)
    ensures cs[i] < |disk| && disk[cs[i]] == Chunk(payload, i) && |Chunk(payload, i)| == SECTOR
  {
    assert i * SECTOR + SECTOR <= |cs| * SECTOR;
  }

  lemma SlotOfChunk(payload: seq<Byte>, i: nat, p: nat)
    requires i * PER_SECTOR <= p < i * PER_SECTOR + PER_SECTOR && |Chunk(payload, i)| == SECTOR && p < |Slots(payload)|
    requires i * SECTOR + SECTOR <= |payload|
    ensures |Slots(Chunk(payload, i))| == PER_SECTOR
            && Slots(Chunk(payload, i))[p - i * PER_SECTOR] == Slots(payload)[p]
  {
    var j := p - i * PER_SECTOR;
    assert SLOT_SIZE * p == i * SECTOR + SLOT_SIZE * j;
    assert Chunk(payload, i) == payload[i * SECTOR..i * SECTOR + SECTOR];
    assert SlotAt(Chunk(payload, i), j) == SlotAt(payload, p);
  }

  // ------------------------------------------------------------- directories

  lemma {:induction false} EntryAtIndex(items: seq<Item>, at: nat, i: nat)
    requires Fitting(items, at) && i < |items|
    ensures ShortName11(items[i].name).Some? && StartOf(items, at, i) < 0x1_0000_0000
            && SizeOf(items[i]) < 0x1_0000_0000
    ensures EntriesOf(items, at)[i] == EntryFor(items[i], StartOf(items, at, i))
    decreases i
  {
    hide *;
    StartBound(items, at, i);
    FittingParts(items, at);
    ClusterLimit();
    FittingHead(items, at);
    StartUnfolds(items, at, i);
    ViewUnfolds(items, at, 0);
    if i > 0 { EntryAtIndex(items[1..], at + Total(items[0], false), i - 1); }
  }

  lemma ClusterLimit()
    ensures MAX_CLUSTERS == 524288 && SECTOR == 512 && PER_SECTOR == 16 && SLOT_SIZE == 32
  {
  }

  /** The entry written for a child that has its clusters. */
  function PackEntry(p: Placed): (e: Slot)
    requires ShortName11(p.name).Some? && forall c | c in p.clusters :: c < 0x1_0000_0000
    requires p.PlacedFile? ==> |p.data| < 0x1_0000_0000
  {
    assert p.clusters != [] ==> p.clusters[0] in p.clusters;
    ShortEntry(ShortName11(p.name).value, if p.PlacedFolder? then ATTR_DIRECTORY else ATTR_ARCHIVE,
               if p.clusters == [] then 0 else p.clusters[0], if p.PlacedFile? then |p.data| else 0)
  }

  lemma PackedIs(item: Item, at: nat)
    requires ShortName11(item.name).Some? && at + Need(item, false) < 0x1_0000_0000 && SizeOf(item) < 0x1_0000_0000
    ensures var p := Laid(item, false, at);
            && ShortName11(p.name).Some? && (forall c | c in p.clusters :: c < 0x1_0000_0000)
            && (p.PlacedFile? ==> |p.data| < 0x1_0000_0000) && PackEntry(p) == EntryFor(item, at)
  {
    LaidKinds(item, false, at);
    FileTotal(item, false);
    hide ShortName11, ShortEntry, LaidAll;
  }

  /** The payload of `write_directories`: the dots, below the root, and the children's entries in a
      zeroed buffer. */
  method FillDirectory(p: Placed, up: nat, isRoot: bool, ghost item: Item, ghost at: nat) returns (payload: seq<Byte>)
    requires FitsAt(item, isRoot, at) && item.Folder? && p == Laid(item, isRoot, at) && up < 0x1_0000_0000
    ensures |payload| == |p.clusters| * SECTOR
    ensures Fitting(item.children, at + Need(item, isRoot)) && at < 0x1_0000_0000
    ensures Slots(payload) == Payload(item, isRoot, at, up)
  {
    hide *;
    LaidKinds(item, isRoot, at);
    FolderFits(item, isRoot, at);
    FileTotal(item, isRoot);
    ClustersAre(item, isRoot, at);
    ClusterLimit();
    PayloadIs(item, isRoot, at, up);
    var n := |p.clusters|;
    ghost var items, c := item.children, at + Need(item, isRoot);
    payload := Zeros(n * SECTOR);
    ZeroSlots(n * SECTOR);
    SlotLength(payload, n);
    var index := 0;
    if !isRoot {
      payload := PutEntry(payload, 0, DotEntry(p.clusters[0]));
      payload := PutEntry(payload, 1, DotDotEntry(up));
      index := 2;
    }
    ghost var front := Front(n * PER_SECTOR, isRoot, at, up);
    FrontStart(payload, n, isRoot, at, up);
    for i := 0 to |p.children|
      invariant |payload| == n * SECTOR && index == FirstChildSlot(isRoot) + i && |Slots(payload)| == n * PER_SECTOR
      invariant Slots(payload) == Overwrite(front, FirstChildSlot(isRoot), EntriesOf(items, c)[..i])
    {
      EntryAtIndex(items, c, i);
      LaidChild(items, c, i);
      ChildRoom(items, c, i);
      PackedIs(items[i], StartOf(items, c, i));
      OverwriteMore(front, FirstChildSlot(isRoot), EntriesOf(items, c), i);
      payload := PutEntry(payload, index, PackEntry(p.children[i]));
      index := index + 1;
    }
    assert EntriesOf(items, c)[..|items|] == EntriesOf(items, c);
  }

  lemma ChildRoom(items: seq<Item>, at: nat, i: nat)
    requires Fitting(items, at) && i < |items|
    ensures StartOf(items, at, i) + Need(items[i], false) < 0x1_0000_0000
  {
    hide *;
    StartBound(items, at, i);
    FittingParts(items, at);
    ClusterLimit();
  }

  lemma OverwriteMore(front: seq<Slot>, base: nat, es: seq<Slot>, i: nat)
    requires base + |es| <= |front| && i < |es|
    ensures Overwrite(front, base, es[..i])[base + i := es[i]] == Overwrite(front, base, es[..i + 1])
  {
  }

  method PutEntry(payload: seq<Byte>, index: nat, e: Slot) returns (r: seq<Byte>)
    requires index < |Slots(payload)|
    ensures |r| == |payload| && Slots(r) == Slots(payload)[index := e]
  {
    SlotFits(|payload|, index);
    r := PutSlot(payload, index, e);
    PutSlotReads(payload, index, e);
  }

  lemma SlotFits(n: nat, i: nat)
    requires i < n / SLOT_SIZE
    ensures SLOT_SIZE * (i + 1) <= n
  {
  }

  lemma FrontStart(payload: seq<Byte>, n: nat, isRoot: bool, at: nat, up: nat)
    requires at < 0x1_0000_0000 && up < 0x1_0000_0000 && |Slots(payload)| == n * PER_SECTOR && n >= 1
    requires var zeros := Slots(Zeros(n * SECTOR));
             && |zeros| == n * PER_SECTOR
             && Slots(payload) == if isRoot then zeros else zeros[0 := DotEntry(at)][1 := DotDotEntry(up)]
    ensures Slots(payload) == Front(n * PER_SECTOR, isRoot, at, up)
    ensures FirstChildSlot(isRoot) <= n * PER_SECTOR ==>
              Overwrite(Front(n * PER_SECTOR, isRoot, at, up), FirstChildSlot(isRoot), []) == Front(n * PER_SECTOR,
                isRoot, at, up)
    ensures forall es: seq<Slot> :: es[..0] == []
  {
    hide DotEntry, DotDotEntry;
    var zeros := Slots(Zeros(n * SECTOR));
    forall p: nat | p < |zeros| ensures zeros[p] == ZeroSlot {
      ZeroSlotAt(n * SECTOR, p);
    }
    hide Slots;
    var front := Front(n * PER_SECTOR, isRoot, at, up);
    forall p: nat | p < n * PER_SECTOR ensures Slots(payload)[p] == front[p] {
      assert front[p] == FrontSlot(isRoot, at, up, p);
    }
  }

  lemma ZeroSlotAt(n: nat, p: nat)
    requires p < |Slots(Zeros(n))|
    ensures Slots(Zeros(n))[p] == ZeroSlot
  {
    SlotFits(n, p);
  }

  /** `write_directories`, for one folder: its own sectors, then everything below it. */
  method WriteDirectories(disk: array<seq<Byte>>, p: Placed, up: nat, isRoot: bool, ghost item: Item, ghost at: nat)
    requires FitsAt(item, isRoot, at) && item.Folder? && p == Laid(item, isRoot, at) && up < 0x1_0000_0000
    requires ValidDisk(disk[..], SECTOR) && at + Total(item, isRoot) <= disk.Length
             && Blank(disk[..], at, at + Total(item, isRoot))
    modifies disk
    ensures ValidDisk(disk[..], SECTOR) && OnlyIn(old(disk[..]), disk[..], at, at + Total(item, isRoot))
    ensures Holds(item, isRoot, at, up, disk[..])
    decreases p, 1
  {
    hide *;
    LaidKinds(item, isRoot, at);
    FolderFits(item, isRoot, at);
    FileTotal(item, isRoot);
    ClustersAre(item, isRoot, at);
    ghost var n, before := Need(item, isRoot), disk[..];
    StretchDistinct(at, n, [], []);
    StretchOn(disk[..], at, n);
    var payload := FillDirectory(p, up, isRoot, item, at);
    var ok := WriteClusterChain(disk, p.clusters, payload);
    ghost var first := disk[..];
    OnlyStretch(before, first, at, n);
    StretchOn(first, at, n);
    SlotsHeld(before, first, p.clusters, payload);
    StillBlank(before, first, at, at + n, at + Total(item, isRoot));
    ghost var mid := at + n;
    WriteChildren(disk, p.children, p.clusters[0], item.children, mid);
    OnlyInTwice(before, first, disk[..], at, mid, mid + TotalOf(item.children));
    DirectoryStays(item, isRoot, at, up, first, disk[..], mid + TotalOf(item.children));
    FolderHolds(item, isRoot, at, up, disk[..]);
  }

  lemma StretchOn(disk: Disk, at: nat, n: nat)
    requires at + n <= |disk|
    ensures ClustersOn(disk, Stretch(at, n)) && (n > 0 ==> Stretch(at, n)[0] == at)
  {
  }

  lemma OnlyStretch(before: Disk, after: Disk, at: nat, n: nat)
    requires |after| == |before| && forall c: nat | c < |after| && c !in Stretch(at, n) :: after[c] == before[c]
    ensures OnlyIn(before, after, at, at + n)
  {
    StretchDistinct(at, n, [], []);
  }

  lemma StillBlank(before: Disk, after: Disk, at: nat, mid: nat, hi: nat)
    requires Blank(before, at, hi) && OnlyIn(before, after, at, mid) && at <= mid <= hi
    ensures Blank(after, mid, hi)
  {
    forall c: nat | mid <= c < hi ensures after[c] == Zeros(SECTOR) {
      assert before[c] == after[c] || at <= c < mid;
      assert at <= c ==> before[c] == Zeros(SECTOR);
    }
  }

  lemma Untouched<T>(before: seq<T>, after: seq<T>, lo: nat, hi: nat)
    requires OnlyIn(before, after, lo, hi)
    ensures |after| == |before| && forall c: nat | c < lo && c < |before| :: after[c] == before[c]
  {
  }

  lemma DirectoryStays(item: Item, isRoot: bool, at: nat, up: nat, first: Disk, disk: Disk, hi: nat)
    requires FitsAt(item, isRoot, at) && item.Folder? && up < 0x1_0000_0000 && at < 0x1_0000_0000
    requires Fitting(item.children, at + Need(item, isRoot))
    requires DirSlots(first, Clusters(item, isRoot, at)) == Payload(item, isRoot, at, up)
    requires OnlyIn(first, disk, at + Need(item, isRoot), hi)
    ensures HoldsOwn(item, isRoot, at, up, disk)
  {
    ClustersAre(item, isRoot, at);
    StretchDistinct(at, Need(item, isRoot), [], []);
    DirSlotsFrame(first, disk, Clusters(item, isRoot, at));
    hide DirSlots, Payload, FitsAt, Clusters, Need;
  }

  lemma FolderHolds(item: Item, isRoot: bool, at: nat, up: nat, disk: Disk)
    requires FitsAt(item, isRoot, at) && item.Folder? && up < 0x1_0000_0000 && HoldsOwn(item, isRoot, at, up, disk)
    requires at >= 2 && at < 0x1_0000_0000 && Fitting(item.children, at + Need(item, isRoot))
    requires HoldsAll(item.children, at + Need(item, isRoot), at, disk)
    ensures Holds(item, isRoot, at, up, disk)
  {
    hide HoldsOwn, HoldsAll, FitsAt, Fitting, Need;
  }

  /** The loop over a folder's children: folders recursively, files into their chains. */
  method WriteChildren(disk: array<seq<Byte>>, ps: seq<Placed>, dir: nat, ghost items: seq<Item>, ghost at: nat)
    requires Fitting(items, at) && at >= 2 && dir < 0x1_0000_0000 && ps == LaidAll(items, at)
    requires ValidDisk(disk[..], SECTOR) && at + TotalOf(items) <= disk.Length
             && Blank(disk[..], at, at + TotalOf(items))
    modifies disk
    ensures ValidDisk(disk[..], SECTOR) && OnlyIn(old(disk[..]), disk[..], at, at + TotalOf(items))
    ensures HoldsAll(items, at, dir, disk[..])
    decreases ps, 0
  {
    hide *;
    LaidUnfolds(items, at);
    ghost var before := disk[..];
    if ps == [] {
      HoldsNone(at, dir, before);
      NothingWritten(before, at);
      return;
    }
    HeadFits(items, at);
    ghost var mid := at + Total(items[0], false);
    LaidKinds(items[0], false, at);
    BlankFront(before, at, mid, at + TotalOf(items));
    if ps[0].PlacedFolder? {
      WriteDirectories(disk, ps[0], dir, false, items[0], at);
    } else {
      WriteFileData(disk, ps[0], items[0], at, dir);
    }
    ghost var first := disk[..];
    StillBlank(before, first, at, mid, at + TotalOf(items));
    WriteChildren(disk, ps[1..], dir, items[1..], mid);
    OnlyInTwice(before, first, disk[..], at, mid, mid + TotalOf(items[1..]));
    Untouched(first, disk[..], mid, mid + TotalOf(items[1..]));
    HoldsStays(items[0], false, at, dir, first, disk[..]);
    AllHold(items, at, dir, disk[..]);
  }

  method WriteFileData(disk: array<seq<Byte>>, p: Placed, ghost item: Item, ghost at: nat, ghost up: nat)
    requires FitsAt(item, false, at) && item.File? && p == Laid(item, false, at) && up < 0x1_0000_0000
    requires ValidDisk(disk[..], SECTOR) && at + Total(item, false) <= disk.Length
    modifies disk
    ensures ValidDisk(disk[..], SECTOR) && OnlyIn(old(disk[..]), disk[..], at, at + Total(item, false))
    ensures Holds(item, false, at, up, disk[..])
  {
    hide *;
    LaidKinds(item, false, at);
    FileTotal(item, false);
    FileSize(item);
    ClustersAre(item, false, at);
    ClusterLimit();
    ghost var n, before := Need(item, false), disk[..];
    StretchDistinct(at, n, [], []);
    StretchOn(disk[..], at, n);
    var ok := WriteClusterChain(disk, p.clusters, p.data);
    OnlyStretch(before, disk[..], at, n);
    StretchOn(disk[..], at, n);
    DataHeld(before, disk[..], p.clusters, p.data);
    FileHolds(item, at, up, disk[..]);
  }

  lemma FileHolds(item: Item, at: nat, up: nat, disk: Disk)
    requires FitsAt(item, false, at) && item.File? && up < 0x1_0000_0000
    requires var bytes := ChainBytes(disk, Clusters(item, false, at));
             |item.data| <= |bytes|
             && bytes[..|item.data|] == item.data
    ensures Holds(item, false, at, up, disk)
  {
    hide ChainBytes, Clusters, FitsAt;
  }

  lemma HoldsNone(at: nat, dir: nat, disk: Disk)
    ensures Fitting([], at) && at >= 2 && dir < 0x1_0000_0000 ==> HoldsAll([], at, dir, disk)
  {
  }

  lemma NothingWritten(disk: Disk, at: nat)
    ensures OnlyIn(disk, disk, at, at + TotalOf([]))
  {
  }

  lemma BlankFront(disk: Disk, at: nat, mid: nat, hi: nat)
    requires Blank(disk, at, hi) && mid <= hi
    ensures Blank(disk, at, mid)
  {
  }

  lemma AllHold(items: seq<Item>, at: nat, dir: nat, disk: Disk)
    requires Fitting(items, at) && at >= 2 && dir < 0x1_0000_0000 && items != []
    requires FitsAt(items[0], false, at) && Fitting(items[1..], at + Total(items[0], false))
    requires Holds(items[0], false, at, dir, disk) && HoldsAll(items[1..], at + Total(items[0], false), dir, disk)
    ensures HoldsAll(items, at, dir, disk)
  {
    hide Holds, Fitting, FitsAt, Total;
  }

  /** Contents depend on the item's own clusters alone. */
  lemma {:induction false} HoldsStays(item: Item, isRoot: bool, at: nat, up: nat, disk: Disk, disk': Disk)
    requires FitsAt(item, isRoot, at) && up < 0x1_0000_0000 && Holds(item, isRoot, at, up, disk)
    requires |disk'| == |disk| && forall c: nat | at <= c < at + Total(item, isRoot) && c < |disk| ::
             disk'[c] == disk[c]
    ensures Holds(item, isRoot, at, up, disk')
    decreases item
  {
    hide *;
    FitsBound(item, isRoot, at);
    ClustersAre(item, isRoot, at);
    StretchDistinct(at, Need(item, isRoot), [], []);
    DirSlotsFrame(disk, disk', Clusters(item, isRoot, at));
    BlocksFrame(disk, disk', Clusters(item, isRoot, at));
    OwnStays(item, isRoot, at, up, disk, disk');
    if item.Folder? {
      FolderFits(item, isRoot, at);
      HoldsUnfolds(item, isRoot, at, up, disk);
      HoldsAllStay(item.children, at + Need(item, isRoot), at, disk, disk');
      FolderHolds(item, isRoot, at, up, disk');
    }
  }

  lemma OwnStays(item: Item, isRoot: bool, at: nat, up: nat, disk: Disk, disk': Disk)
    requires FitsAt(item, isRoot, at) && up < 0x1_0000_0000 && Holds(item, isRoot, at, up, disk)
    requires DirSlots(disk', Clusters(item, isRoot, at)) == DirSlots(disk, Clusters(item, isRoot, at))
    requires Blocks(disk', Clusters(item, isRoot, at)) == Blocks(disk, Clusters(item, isRoot, at))
    ensures HoldsOwn(item, isRoot, at, up, disk')
    ensures item.File? ==> Holds(item, isRoot, at, up, disk')
  {
    hide FitsAt, DirSlots, Blocks, Payload, Clusters;
  }

  lemma {:induction false} HoldsAllStay(items: seq<Item>, at: nat, dir: nat, disk: Disk, disk': Disk)
    requires Fitting(items, at) && at >= 2 && dir < 0x1_0000_0000 && HoldsAll(items, at, dir, disk)
    requires |disk'| == |disk| && forall c: nat | at <= c < at + TotalOf(items) && c < |disk| :: disk'[c] == disk[c]
    ensures HoldsAll(items, at, dir, disk')
    decreases items
  {
    hide *;
    if items == [] {
      HoldsNone(at, dir, disk');
    } else {
      HeadFits(items, at);
      HoldsAllUnfolds(items, at, dir, disk);
      HoldsStays(items[0], false, at, dir, disk, disk');
      HoldsAllStay(items[1..], at + Total(items[0], false), dir, disk, disk');
      AllHold(items, at, dir, disk');
    }
  }
}
