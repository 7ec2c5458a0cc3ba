/** Reading and writing whole files: fat32_read_file and fat32_write_file. */
module FatWrites {
  import opened Bytes
  import opened FatSlots
  import opened FatNames
  import opened FatTables
  import opened FatBlocks
  import opened FatDirectory
  import opened FatStore
  import opened FatData
  import opened FatImage
  import opened FatSteps
  import opened FatMoves
  import opened FatLookup
  import opened FatVolume
  import opened FatNaming
  import opened Paths

  // ------------------------------------------------- a chain of the right length

  /** Chain `cs'` replaces `cs`; besides clusters of `cs` it uses only `spare`, which was free. */
  ghost predicate Fitted(fat: Table, fat': Table, cs: seq<nat>, cs': seq<nat>, spare: seq<nat>) {
    && AgreeOff(fat, fat', cs + cs')
    && (cs' == [] || IsChain(fat', cs'))
    && (forall c | c in cs' :: c in cs || c in spare)
    && (forall c | c in spare :: IsFree(fat, c))
    && (forall c | c in cs && c !in cs' && c < |fat'| :: fat'[c] == 0)
  }

  lemma FitWhole(fat: Table, fat': Table, disk: Disk, disk': Disk, cs: seq<nat>, cs': seq<nat>, size: nat)
    requires Extended(fat, fat', disk, disk', cs, cs', size)
    ensures Fitted(fat, fat', cs, cs', cs'[|cs|..]) && Zeroed(disk, disk', cs'[|cs|..], size) && cs <= cs'
  {
    hide IsChain, FreeClusters;
    assert cs' == cs + cs'[|cs|..];
  }

  /** Trimming what was just lengthened: clusters gained and given back end as they began. */
  lemma FitTrimmed(fat: Table, mid: Table, fat': Table, disk: Disk, disk': Disk, cs: seq<nat>, cs1: seq<nat>, n: nat,
                   size: nat)
    requires Extended(fat, mid, disk, disk', cs, cs1, size) && n <= |cs1|
    requires cs1 == [] ==> fat' == mid
    requires cs1 != [] && n == 0 ==> Cleared(mid, fat', cs1)
    requires n > 0 ==>
               && IsChain(fat', cs1[..n]) && AgreeOff(mid, fat', cs1)
               && forall c | 0 <= c < |fat'| && c in cs1[n..] :: fat'[c] == 0
    ensures Fitted(fat, fat', cs, cs1[..n], cs1[|cs|..]) && Zeroed(disk, disk', cs1[|cs|..], size)
  {
    hide IsChain, FreeClusters;
    assert cs1 == cs + cs1[|cs|..] && cs1 == cs1[..n] + cs1[n..];
    forall c | 0 <= c < |fat| && c !in cs + cs1[..n] ensures fat'[c] == fat[c] {
      if c in cs1 {
        assert c in cs1[|cs|..] && c in cs1[n..];
        assert IsFree(fat, c);
      }
    }
  }

  /** How long a chain of `held` clusters is once fitted: overwriting makes it exactly what is
      required, appending lengthens it by what is missing. */
  function FittedLength(held: nat, current: nat, required: nat, trim: bool): nat {
    if trim || held == 0 then required else held + if required > current then required - current else 0
  }

  method FitChain(store: Store, first: U32, current: nat, required: nat, trim: bool, ghost cs: seq<nat>)
    returns (r: Result, first': U32, ghost cs': seq<nat>, ghost spare: seq<nat>)
    requires store.Valid() && current <= |cs|
    requires if current == 0 then cs == [] && first == 0 else IsChain(store.table.View(), cs) && cs[0] == first
    modifies store.table.entries, store.disk
    ensures store.Valid()
    ensures r == if |FreeClusters(old(store.table.View()))| < required - current then NoSpace else Ok
    ensures r == NoSpace ==>
              RanOut(old(store.table.View()), store.table.View(), old(store.disk[..]), store.disk[..], cs, cs')
    ensures r == NoSpace ==>
              Extended(old(store.table.View()), store.table.View(), old(store.disk[..]), store.disk[..], cs, cs',
                store.size)
    ensures r == Ok ==> Fitted(old(store.table.View()), store.table.View(), cs, cs', spare)
    ensures r == Ok ==> Zeroed(old(store.disk[..]), store.disk[..], spare, store.size)
    ensures r == Ok ==> first' == (if cs' == [] then 0 else cs'[0]) && (cs' != [] ==> IsChain(store.table.View(), cs'))
    ensures r == Ok ==> |cs'| >= required && (if trim || cs == [] then |cs'| == required else cs <= cs')
    ensures r == Ok ==> |cs'| == FittedLength(|cs|, current, required, trim)
  {
    ghost var fat, before := store.table.View(), store.disk[..];
    spare := [];
    hide Extended, Fitted, Zeroed, FreeClusters, Cleared, ValidDisk, RanOut;
    r, first', cs' := EnsureLength(store, first, current, required, cs);
    if r != Ok {
      return;
    }
    ghost var mid, cs1 := store.table.View(), cs';
    ExtendedChain(fat, mid, before, store.disk[..], cs, cs1, store.size);
    hide IsChain;
    spare := cs1[|cs|..];
    if !trim {
      FitWhole(fat, mid, before, store.disk[..], cs, cs1, store.size);
      return;
    }
    r, first' := store.table.TrimClusterChain(first', required, cs1);
    cs' := cs1[..required];
    FitTrimmed(fat, mid, store.table.View(), before, store.disk[..], cs, cs1, required, store.size);
  }

  lemma ExtendedChain(fat: Table, fat': Table, disk: Disk, disk': Disk, cs: seq<nat>, cs': seq<nat>, size: nat)
    requires Extended(fat, fat', disk, disk', cs, cs', size)
    ensures cs' != [] ==> IsChain(fat', cs') && cs'[0] != 0
    ensures cs <= cs'
  {
    assert cs' != [] ==> LinkAt(fat', cs', 0);
  }

  /** Fitting gives the old clusters back and takes the new ones, and no others. */
  lemma FittedFree(fat: Table, fat': Table, cs: seq<nat>, cs': seq<nat>, spare: seq<nat>)
    requires |fat| <= MAX_CLUSTERS && Fitted(fat, fat', cs, cs', spare) && (cs != [] ==> IsChain(fat, cs))
    ensures FreeClusters(fat') == FreeClusters(fat) + SetOf(cs) - SetOf(cs')
    ensures |FreeClusters(fat')| == |FreeClusters(fat)| + |cs| - |cs'|
    ensures forall c | c in cs' :: c in cs || IsFree(fat, c)
  {
    hide FreeClusters, IsFree;
    forall c: nat ensures c in FreeClusters(fat') <==> c in FreeClusters(fat) + SetOf(cs) - SetOf(cs') {
      if c in cs' { ChainInUse(fat', cs', c); }
      if c in cs { ChainInUse(fat, cs, c); }
      FreeSame(fat, fat', c);
      FreeMember(fat', c);
      ZeroIsFree(fat', c);
    }
    assert FreeClusters(fat') == FreeClusters(fat) + SetOf(cs) - SetOf(cs');
    forall c | c in cs' ensures c in FreeClusters(fat) + SetOf(cs) && (c in cs || IsFree(fat, c)) {
      FreeMember(fat, c);
    }
    forall c | c in cs ensures c !in FreeClusters(fat) {
      ChainInUse(fat, cs, c);
      FreeMember(fat, c);
    }
    if cs' != [] { ChainAcyclic(fat', cs'); }
    if cs != [] { ChainAcyclic(fat, cs); }
    SetOfSize(cs);
    SetOfSize(cs');
    Exchange(FreeClusters(fat), SetOf(cs), SetOf(cs'));
  }

  lemma Exchange<T>(free: set<T>, given: set<T>, taken: set<T>)
    requires free !! given && taken <= free + given
    ensures |free + given - taken| == |free| + |given| - |taken|
  {
  }

  lemma ZeroIsFree(fat: Table, c: nat)
    ensures IsDataCluster(fat, c) && fat[c] == 0 ==> IsFree(fat, c)
  {
  }

  lemma FreeSame(fat: Table, fat': Table, c: nat)
    ensures |fat'| == |fat| && (c < |fat| ==> fat'[c] == fat[c]) ==>
            (c in FreeClusters(fat') <==> c in FreeClusters(fat))
  {
  }

  lemma FreeMember(fat: Table, c: nat)
    ensures IsFree(fat, c) <==> c in FreeClusters(fat)
  {
  }

  // ------------------------------------------------------ storing a file's bytes

  /** The bytes of `cs` survive in the longer `cs'`. */
  lemma PrefixKept(fat: Table, disk: Disk, disk': Disk, cs: seq<nat>, cs': seq<nat>, spare: seq<nat>, size: nat)
    requires cs != [] ==> IsChain(fat, cs)
    requires cs <= cs' && Zeroed(disk, disk', spare, size) && forall c | c in spare :: IsFree(fat, c)
    ensures ChainBytes(disk, cs) <= ChainBytes(disk', cs')
  {
    hide IsChain;
    forall c | c in cs ensures c !in spare {
      ChainInUse(fat, cs, c);
    }
    BlocksFrame(disk, disk', cs);
    assert cs' == cs + cs'[|cs|..];
    assert Blocks(disk', cs') == Blocks(disk', cs) + Blocks(disk', cs'[|cs|..]);
    FlatConcat(Blocks(disk', cs), Blocks(disk', cs'[|cs|..]));
  }

  lemma SplicedFront(whole: seq<Byte>, start: nat, data: seq<Byte>)
    requires start + |data| <= |whole|
    ensures Splice(whole, start, data)[..start + |data|] == whole[..start] + data
  {
  }

  lemma EnoughRoom(bytes: nat, required: nat, clusters: nat, size: nat)
    requires bytes <= required * size && required <= clusters
    ensures bytes <= clusters * size
  {
    Product(required, clusters, size);
  }

  /** The part of fat32_write_file that all its branches share: fit the chain, then write the
      data.  `mid` is the disk after the new clusters were zeroed. */
  method StoreData(store: Store, first: U32, current: nat, required: nat, start: nat, data: seq<Byte>, trim: bool,
                   ghost cs: seq<nat>)
    returns (r: Result, first': U32, ghost cs': seq<nat>, ghost spare: seq<nat>, ghost mid: Disk)
    requires store.Valid() && current <= |cs|
    requires if current == 0 then cs == [] && first == 0 else IsChain(store.table.View(), cs) && cs[0] == first
    requires start + |data| <= required * store.size && start <= |Content(store, cs)|
    requires trim ==> start == 0
    modifies store.table.entries, store.disk
    ensures store.Valid()
    ensures r == if |FreeClusters(old(store.table.View()))| < required - current then NoSpace else Ok
    ensures r == NoSpace ==>
              RanOut(old(store.table.View()), store.table.View(), old(store.disk[..]), store.disk[..], cs, cs')
    ensures r == NoSpace ==>
              Extended(old(store.table.View()), store.table.View(), old(store.disk[..]), store.disk[..], cs, cs',
                store.size)
    ensures r == Ok ==> Fitted(old(store.table.View()), store.table.View(), cs, cs', spare)
    ensures r == Ok ==> Zeroed(old(store.disk[..]), mid, spare, store.size) && ValidDisk(mid, store.size)
    ensures r == Ok ==> DiskOff(mid, store.disk[..], cs')
    ensures r == Ok ==> first' == (if cs' == [] then 0 else cs'[0]) && (cs' != [] ==> IsChain(store.table.View(), cs'))
    ensures r == Ok ==>
              |cs'| >= required && (trim || cs == [] ==> |cs'| == required)
              && |cs'| == FittedLength(|cs|, current, required, trim)
              && start + |data| <= |cs'| * store.size
    ensures r == Ok ==> start + |data| <= |Content(store, cs')|
                        && Content(store, cs')[..start + |data|] == old(Content(store, cs))[..start] + data
  {
    ghost var fat, before := store.table.View(), store.disk[..];
    hide Extended, Fitted, Zeroed, FreeClusters, ValidDisk, IsChain, ChainBytes, RanOut;
    r, first', cs', spare := FitChain(store, first, current, required, trim, cs);
    mid := store.disk[..];
    if r != Ok {
      return;
    }
    DiskIsValid(store, cs');
    EnoughRoom(start + |data|, required, |cs'|, store.size);
    ChainLength(store, cs');
    StartKept(fat, store.table.View(), before, mid, cs, cs', spare, store.size, start, trim);
    NonEmptyFit(data, start, cs', store.size);
    ghost var whole := Content(store, cs');
    r := WriteDataToChain(store, first', start, data, cs');
    SplicedFront(whole, start, data);
  }

  lemma NonEmptyFit(data: seq<Byte>, start: nat, cs': seq<nat>, size: nat)
    requires start + |data| <= |cs'| * size
    ensures data != [] ==> cs' != []
  {
  }

  lemma StartKept(fat: Table, fat': Table, disk: Disk, mid: Disk, cs: seq<nat>, cs': seq<nat>, spare: seq<nat>,
                  size: nat, start: nat, trim: bool)
    requires Fitted(fat, fat', cs, cs', spare) && Zeroed(disk, mid, spare, size)
    requires cs != [] ==> IsChain(fat, cs)
    requires start <= |ChainBytes(disk, cs)| && start <= |ChainBytes(mid, cs')|
    requires trim ==> start == 0
    requires !trim && cs != [] ==> cs <= cs'
    ensures ChainBytes(mid, cs')[..start] == ChainBytes(disk, cs)[..start]
  {
    hide IsChain, Zeroed;
    EmptyChain(disk);
    if start > 0 {
      PrefixKept(fat, disk, mid, cs, cs', spare, size);
    }
  }

  // ------------------------------------------------ an existing file is rewritten

  /** What the chain of a listed file offers: enough clusters for its size. */
  lemma FileChain(img: Image, d: nat, k: Key)
    requires ValidImage(img) && Listed(img, d, k) && !IsDot(k) && !IsDirectory(EntryOf(img, d, k))
    ensures var e := EntryOf(img, d, k);
            var f := FirstCluster(e);
            var cs := OldChain(img.chains, f);
            && ClustersFor(img.size, Size(e)) <= |cs| && f !in img.views && d in img.chains && f != d
            && (if ClustersFor(img.size, Size(e)) == 0 then cs == [] && f == 0
                else f in img.chains && IsChain(img.fat, cs) && cs[0] == f)
            && Size(e) <= |ChainBytes(img.disk, cs)|
            && NodeOf(img, e) == FileNode(ChainBytes(img.disk, cs)[..Size(e)])
  {
    FileBytes(img, d, k);
    EntryKind(img, d, k);
    ClustersForCovers(img.size, Size(EntryOf(img, d, k)));
    hide AllPlaced, AllSlots, AllOwners, AllEntries, FirstCluster, Size, IsDirectory, IsDot, ClustersFor, IsChain,
         ChainBytes;
    var f := FirstCluster(EntryOf(img, d, k));
    EmptyChain(img.disk);
    ViewHasChain(img, d);
    if f != 0 {
      BytesLength(img, f);
      assert ChainAt(img.fat, img.chains, f);
    }
  }

  lemma ViewHasChain(img: Image, d: nat)
    requires Linked(img)
    ensures 0 !in img.chains && (d in img.views ==> d in img.chains)
  {
    hide AllPlaced, AllOwners, AllEntries;
  }

  /** The directory's own chain is not affected by fitting a file's. */
  lemma DirectoryKept(img: Image, d: nat, f: nat, fat': Table, mid: Disk, disk': Disk, cs': seq<nat>, spare: seq<nat>)
    requires Storage(img) && d in img.chains && d != f
    requires Fitted(img.fat, fat', OldChain(img.chains, f), cs', spare)
    requires Zeroed(img.disk, mid, spare, img.size) && DiskOff(mid, disk', cs')
    ensures IsChain(fat', img.chains[d]) && Apart(img.chains[d], cs') && Apart(cs', img.chains[d])
    ensures DirSlots(disk', img.chains[d]) == SlotsOf(img, d)
  {
    hide IsChain, DirSlots;
    var cs := img.chains[d];
    assert ChainAt(img.fat, img.chains, d);
    forall c | c in cs ensures c !in OldChain(img.chains, f) && c !in spare {
      ChainInUse(img.fat, cs, c);
      if f in img.chains { assert Apart(cs, img.chains[f]); }
    }
    ChainFrame(img.fat, fat', cs, OldChain(img.chains, f) + cs');
    DirSlotsFrame(img.disk, disk', cs);
  }

  /** The volume just after the new clusters were zeroed: nothing has changed for anyone. */
  lemma ZeroedAside(img: Image, mid: Disk, spare: seq<nat>)
    requires ValidImage(img) && Zeroed(img.disk, mid, spare, img.size) && ValidDisk(mid, img.size)
    requires forall c | c in spare :: IsFree(img.fat, c)
    ensures ValidImage(img.(disk := mid)) && Tree(img.(disk := mid)) == Tree(img)
    ensures forall h | h in img.chains :: SlotsOf(img.(disk := mid), h) == SlotsOf(img, h)
  {
    FreeIsUnowned(img, spare);
    hide ValidImage, Tree, SlotsOf;
    ValidParts(img);
    OrphanStep(img, img.fat, mid, spare);
    assert img.(fat := img.fat, disk := mid) == img.(disk := mid);
    forall h | h in img.chains ensures SlotsOf(img.(disk := mid), h) == SlotsOf(img, h) {
      SameReads(img, img.(disk := mid), h);
    }
  }

  ghost predicate Committed(img: Image, d: nat, k: Key, entry: Slot, cs': seq<nat>, disk': Disk, disk'': Disk) {
    && Listed(img, d, k) && d in img.chains && img.views[d][k].Last() < |SlotsOf(img, d)|
    && DiskOff(disk', disk'', img.chains[d])
    && DirSlots(disk'', img.chains[d]) == SlotsOf(img, d)[img.views[d][k].Last() := entry]
  }

  lemma RewriteIsReady(img: Image, d: nat, k: Key, entry: Slot, cs': seq<nat>, spare: seq<nat>,
                       fat': Table, mid: Disk, disk': Disk, disk'': Disk)
    requires ValidImage(img) && Listed(img, d, k) && !IsDot(k) && !IsDirectory(EntryOf(img, d, k)) && d in img.chains
    requires var e := EntryOf(img, d, k);
             && RawName(entry) == RawName(e) && Attributes(entry) == Attributes(e)
             && Fitted(img.fat, fat', OldChain(img.chains, FirstCluster(e)), cs', spare)
    requires Zeroed(img.disk, mid, spare, img.size) && DiskOff(mid, disk', cs') && ValidDisk(disk'', img.size)
    requires Committed(img, d, k, entry, cs', disk', disk'')
    requires if cs' == [] then FirstCluster(entry) == 0 && Size(entry) == 0
             else IsChain(fat', cs') && cs'[0] == FirstCluster(entry) != 0 && 0 < Size(entry) <= |cs'| * img.size
    ensures RewriteReady(img.(disk := mid), d, k, entry, cs', fat', disk'')
  {
    hide Linked, Storage, IsChain, FirstCluster, Size, IsDot, ValidDirectory, DirSlots, RawName;
    assert SlotsOk(img, d);
    UpdateValid(SlotsOf(img, d), img.views[d], k, entry);
    var cs := OldChain(img.chains, FirstCluster(EntryOf(img, d, k)));
    assert DiskOff(mid, disk'', cs + cs' + img.chains[d]);
  }

  /** The second half of rewriting a file: its chain is fitted and filled, the entry is not yet
      written. */
  ghost predicate Filled(img: Image, d: nat, k: Key, first: nat, bytes: seq<Byte>, cs': seq<nat>, spare: seq<nat>,
                         fat': Table, mid: Disk, disk': Disk) {
    && Listed(img, d, k) && !IsDot(k) && !IsDirectory(EntryOf(img, d, k)) && d in img.chains
    && Fitted(img.fat, fat', OldChain(img.chains, FirstCluster(EntryOf(img, d, k))), cs', spare)
    && Zeroed(img.disk, mid, spare, img.size) && ValidDisk(mid, img.size) && DiskOff(mid, disk', cs')
    && first == (if cs' == [] then 0 else cs'[0]) && (cs' != [] ==> IsChain(fat', cs'))
    && (cs' == [] <==> bytes == []) && |bytes| <= |cs'| * img.size && |bytes| < 0x1_0000_0000
    && |bytes| <= |ChainBytes(disk', cs')| && ChainBytes(disk', cs')[..|bytes|] == bytes
  }

  lemma RewrittenNode(img: Image, d: nat, k: Key, entry: Slot, cs': seq<nat>, fat': Table, disk': Disk, disk'': Disk,
                      bytes: seq<Byte>)
    requires ValidImage(img) && Listed(img, d, k) && !IsDot(k) && !IsDirectory(EntryOf(img, d, k)) && d in img.chains
    requires !IsDirectory(entry) && Size(entry) == |bytes| && Apart(cs', img.chains[d])
    requires if cs' == [] then FirstCluster(entry) == 0 else cs'[0] == FirstCluster(entry) != 0
    requires DiskOff(disk', disk'', img.chains[d])
    requires |bytes| <= |ChainBytes(disk', cs')| && ChainBytes(disk', cs')[..|bytes|] == bytes
    ensures NodeOf(Rewritten(img, d, k, entry, cs').(fat := fat', disk := disk''), entry) == FileNode(bytes)
  {
    EntryKind(img, d, k);
    hide Storage, Linked, AllSlots, FirstCluster, Size, IsDirectory, IsDot, ChainBytes;
    RewrittenViews(img, d, k, entry, cs');
    hide Rewritten;
    BlocksFrame(disk', disk'', cs');
    SameBlocks(disk', disk'', cs');
    EmptyChain(disk');
    assert cs' == [] ==> bytes == [];
  }

  lemma SameBlocks(disk: Disk, disk': Disk, cs: seq<nat>)
    requires Blocks(disk', cs) == Blocks(disk, cs)
    ensures ChainBytes(disk', cs) == ChainBytes(disk, cs)
  {
  }

  lemma CommitRewrite(img: Image, d: nat, k: Key, entry: Slot, bytes: seq<Byte>, cs': seq<nat>, spare: seq<nat>,
                      fat': Table, mid: Disk, disk': Disk, disk'': Disk)
    requires ValidImage(img) && Filled(img, d, k, FirstCluster(entry), bytes, cs', spare, fat', mid, disk')
    requires var e := EntryOf(img, d, k); RawName(entry) == RawName(e) && Attributes(entry) == Attributes(e)
    requires Size(entry) == |bytes| && ValidDisk(disk'', img.size)
    requires Committed(img, d, k, entry, cs', disk', disk'')
    ensures Listed(img.(disk := mid), d, k)
    ensures var img' := Rewritten(img.(disk := mid), d, k, entry, cs').(fat := fat', disk := disk'');
            && ValidImage(img') && img'.size == img.size && img'.root == img.root && d in Tree(img)
            && Tree(img') == Tree(img)[d := Tree(img)[d][k := FileNode(bytes)]]
            && Spent(img, img', d, k, 0) && HeldBy(img', d, k) == cs'
  {
    ValidParts(img);
    var imgA := img.(disk := mid);
    FilledFacts(img, d, k, entry, bytes, cs', spare, fat', mid, disk');
    hide ValidImage, Storage, Linked, AllSlots, FirstCluster, Size, IsDirectory, IsDot, RawName, Attributes, Rewritten,
         Tree, RewriteReady, Committed, Filled, Fitted, Zeroed, IsChain, ChainBytes, Spent, HeldBy;
    ZeroedAside(img, mid, spare);
    RewriteIsReady(img, d, k, entry, cs', spare, fat', mid, disk', disk'');
    RewriteStep(imgA, d, k, entry, cs', fat', disk'');
    RewrittenSize(imgA, d, k, entry, cs');
    RewrittenSpent(img, d, k, entry, cs', spare, fat', mid, disk'');
    RewrittenNode(imgA, d, k, entry, cs', fat', disk', disk'', bytes);
  }

  /** A rewritten file has exchanged its clusters, and nothing else has. */
  lemma RewrittenSpent(img: Image, d: nat, k: Key, entry: Slot, cs': seq<nat>, spare: seq<nat>, fat': Table, mid: Disk,
                       disk'': Disk)
    requires ValidImage(img) && Listed(img, d, k) && !IsDot(k) && !IsDirectory(EntryOf(img, d, k)) && d in img.chains
    requires Fitted(img.fat, fat', OldChain(img.chains, FirstCluster(EntryOf(img, d, k))), cs', spare)
    requires !IsDirectory(entry) && if cs' == [] then FirstCluster(entry) == 0 else cs'[0] == FirstCluster(entry) != 0
    ensures var img' := Rewritten(img.(disk := mid), d, k, entry, cs').(fat := fat', disk := disk'');
            Spent(img, img', d, k, 0) && HeldBy(img', d, k) == cs'
  {
    ValidParts(img);
    var cs := OldChain(img.chains, FirstCluster(EntryOf(img, d, k)));
    FileChain(img, d, k);
    StorageSize(img);
    HeldIsChain(img, FirstCluster(EntryOf(img, d, k)));
    FittedFree(img.fat, fat', cs, cs', spare);
    FittedHeads(img, FirstCluster(EntryOf(img, d, k)), cs');
    NoZeroHead(img);
    hide *;
    HeldIs(img, d, k);
    RewrittenHolds(img.(disk := mid), d, k, entry, cs', fat', disk'');
    ChainsSpent(img, Rewritten(img.(disk := mid), d, k, entry, cs').(fat := fat', disk := disk''), d, k, cs');
  }

  lemma RewrittenHolds(img: Image, d: nat, k: Key, entry: Slot, cs': seq<nat>, fat': Table, disk'': Disk)
    requires Listed(img, d, k) && d in img.chains && 0 !in img.chains && FirstCluster(EntryOf(img, d, k)) != d
    requires !IsDirectory(entry) && if cs' == [] then FirstCluster(entry) == 0 else cs'[0] == FirstCluster(entry) != 0
    requires cs' != [] ==> cs'[0] == FirstCluster(EntryOf(img, d, k)) || cs'[0] !in img.chains
    requires FirstCluster(EntryOf(img, d, k)) !in img.views
    ensures var img' := Rewritten(img, d, k, entry, cs').(fat := fat', disk := disk'');
            && img'.fat == fat' && d in img'.chains && img'.chains[d] == img.chains[d] && HeldBy(img', d, k) == cs'
            && forall h | h in img.chains && h != FirstCluster(EntryOf(img, d, k)) ::
                 h in img'.chains && img'.chains[h] == img.chains[h]
  {
    hide FirstCluster, IsDirectory;
  }

  lemma ChainsSpent(img: Image, img': Image, d: nat, k: Key, cs': seq<nat>)
    requires Listed(img, d, k) && d in img.chains && d in img'.chains && img'.chains[d] == img.chains[d]
    requires HeldBy(img', d, k) == cs'
    requires forall h | h in img.chains && h != FirstCluster(EntryOf(img, d, k)) ::
               h in img'.chains && img'.chains[h] == img.chains[h]
    requires var f := FirstCluster(EntryOf(img, d, k)); f in img.chains ==> f in img.chains[f]
    requires FreeClusters(img'.fat) == FreeClusters(img.fat) + SetOf(HeldBy(img, d, k)) - SetOf(cs')
    requires |FreeClusters(img'.fat)| == |FreeClusters(img.fat)| + |HeldBy(img, d, k)| - |cs'|
    ensures Spent(img, img', d, k, 0)
  {
    hide FreeClusters, FirstCluster;
    assert Gained(img, img', d) == [] && SetOf([]) == {};
  }

  lemma StorageSize(img: Image)
    requires Storage(img)
    ensures |img.fat| <= MAX_CLUSTERS
  {
  }

  lemma HeldIsChain(img: Image, f: nat)
    requires Storage(img)
    ensures OldChain(img.chains, f) != [] ==> IsChain(img.fat, OldChain(img.chains, f))
    ensures f in img.chains ==> img.chains[f] != [] && f in img.chains[f]
  {
    if f in img.chains { assert ChainAt(img.fat, img.chains, f); }
  }

  /** A fitted chain starts at the head of the old one or at none of the volume's. */
  lemma FittedHeads(img: Image, f: nat, cs': seq<nat>)
    requires Storage(img) && forall c | c in cs' :: c in OldChain(img.chains, f) || IsFree(img.fat, c)
    ensures cs' != [] ==> cs'[0] == f || cs'[0] !in img.chains
  {
    if cs' != [] && cs'[0] in img.chains {
      HeldIsChain(img, cs'[0]);
      ChainInUse(img.fat, img.chains[cs'[0]], cs'[0]);
      assert cs'[0] in cs';
      HeadsApart(img, f, cs'[0]);
    }
  }

  lemma HeadsApart(img: Image, f: nat, h: nat)
    requires Storage(img) && h in img.chains && h in OldChain(img.chains, f)
    ensures h == f
  {
    HeldIsChain(img, h);
    assert f in img.chains;
    assert h != f ==> Apart(img.chains[h], img.chains[f]);
  }

  lemma RewrittenSize(img: Image, d: nat, k: Key, entry: Slot, cs': seq<nat>)
    requires Listed(img, d, k)
    ensures Rewritten(img, d, k, entry, cs').size == img.size && Rewritten(img, d, k, entry, cs').root == img.root
  {
    hide FirstCluster, IsDirectory;
  }

  lemma FilledFacts(img: Image, d: nat, k: Key, entry: Slot, bytes: seq<Byte>, cs': seq<nat>, spare: seq<nat>,
                    fat': Table, mid: Disk, disk': Disk)
    requires ValidImage(img) && Filled(img, d, k, FirstCluster(entry), bytes, cs', spare, fat', mid, disk')
    requires Attributes(entry) == Attributes(EntryOf(img, d, k)) && Size(entry) == |bytes|
    ensures Listed(img, d, k) && !IsDot(k) && !IsDirectory(EntryOf(img, d, k)) && d in img.chains && !IsDirectory(entry)
    ensures Fitted(img.fat, fat', OldChain(img.chains, FirstCluster(EntryOf(img, d, k))), cs', spare)
    ensures Zeroed(img.disk, mid, spare, img.size) && ValidDisk(mid, img.size) && DiskOff(mid, disk', cs')
    ensures forall c | c in spare :: IsFree(img.fat, c)
    ensures if cs' == [] then FirstCluster(entry) == 0 && Size(entry) == 0
            else IsChain(fat', cs') && cs'[0] == FirstCluster(entry) != 0 && 0 < Size(entry) <= |cs'| * img.size
    ensures |bytes| <= |ChainBytes(disk', cs')| && ChainBytes(disk', cs')[..|bytes|] == bytes
    ensures IsChain(fat', img.chains[d]) && Apart(cs', img.chains[d])
    ensures DirSlots(disk', img.chains[d]) == SlotsOf(img, d)
  {
    EntryKind(img, d, k);
    FileChain(img, d, k);
    DirectoryKept(img, d, FirstCluster(EntryOf(img, d, k)), fat', mid, disk', cs', spare);
    hide Linked, AllSlots, Storage, FirstCluster, Size, IsDot, DirSlots, ChainBytes;
    assert cs' != [] ==> LinkAt(fat', cs', 0);
  }

  /** Where the entry of a listed name lies. */
  lemma EntryPlace(img: Image, d: nat, k: Key)
    requires ValidImage(img) && Listed(img, d, k)
    ensures d in img.views && k in img.views[d] && d in img.chains && EntryOf(img, d, k) == img.views[d][k].entry
    ensures img.views[d][k].Last() < |SlotsOf(img, d)| && IsChain(img.fat, img.chains[d]) && img.chains[d][0] == d
    ensures ValidDirectory(SlotsOf(img, d), img.views[d])
  {
    hide Linked, ValidDirectory, DirSlots;
    assert SlotsOk(img, d) && ChainAt(img.fat, img.chains, d);
    LastSlot(SlotsOf(img, d), img.views[d], k);
  }

  lemma CommittedNow(vol: Volume, img: Image, d: nat, k: Key, entry: Slot, cs': seq<nat>, disk': Disk)
    requires vol.store.Valid() && Listed(img, d, k) && d in img.chains && img.views[d][k].Last() < |SlotsOf(img, d)|
    requires vol.store.All(img.chains[d]) == SlotsOf(img, d)[img.views[d][k].Last() := entry]
    requires |disk'| == vol.store.disk.Length
    requires forall c | 0 <= c < |disk'| && c !in img.chains[d] :: vol.store.disk[c] == disk'[c]
    ensures Committed(img, d, k, entry, cs', disk', vol.store.disk[..])
  {
    hide DirSlots;
  }

  lemma FilledListed(img: Image, d: nat, k: Key, first: nat, bytes: seq<Byte>, cs': seq<nat>, spare: seq<nat>,
                     fat': Table, mid: Disk, disk': Disk)
    requires Filled(img, d, k, first, bytes, cs', spare, fat', mid, disk')
    ensures Listed(img, d, k)
  {
  }

  method FinishRewrite(vol: Volume, ghost img: Image, dir: U32, ghost k: Key, ref: EntryRef, first: U32, size: U32,
                       ghost bytes: seq<Byte>,
                       ghost cs': seq<nat>, ghost spare: seq<nat>, ghost mid: Disk)
    returns (r: Result)
    requires vol.store.Valid() && ValidImage(img)
    requires vol.Now() == img.(fat := vol.store.table.View(), disk := vol.store.disk[..])
    requires Filled(img, dir, k, first, bytes, cs', spare, vol.store.table.View(), mid, vol.store.disk[..])
    requires ref == RefOf(img.views[dir][k]) && size == |bytes|
    modifies vol, vol.store.disk
    ensures vol.Valid() && r == Ok && dir as nat in Tree(img)
    ensures Tree(vol.Now()) == Tree(img)[dir as nat := Tree(img)[dir][k := FileNode(bytes)]]
    ensures Spent(img, vol.Now(), dir, k, 0) && HeldBy(vol.Now(), dir, k) == cs'
  {
    hide *;
    ghost var d: nat := dir;
    var entry := WithSize(WithFirstCluster(ref.entry, first), size);
    ghost var fat', disk' := vol.store.table.View(), vol.store.disk[..];
    FilledListed(img, d, k, first, bytes, cs', spare, fat', mid, disk');
    EntryPlace(img, d, k);
    RefEntry(img.views[d][k]);
    VolumeIs(vol, img);
    FilledFacts(img, d, k, entry, bytes, cs', spare, fat', mid, disk');
    r := vol.store.WriteSlot(dir, ref.index, entry, img.chains[d]);
    CommittedNow(vol, img, d, k, entry, cs', disk');
    DiskIsValid(vol.store, cs');
    CommitRewrite(img, d, k, entry, bytes, cs', spare, fat', mid, disk', vol.store.disk[..]);
    vol.Adopt(Rewritten(img.(disk := mid), d, k, entry, cs').(fat := fat', disk := vol.store.disk[..]));
  }

  // ------------------------------------------------------------ the operation

  /** What a write does to the file system: the named file ends up with the given bytes, or with
      its old bytes followed by them. */
  ghost function WrittenTree(tree: FileSystem, d: nat, k: Key, data: seq<Byte>, append: bool): FileSystem
    requires d in tree
  {
    var before := if append && k in tree[d] && tree[d][k].FileNode? then tree[d][k].bytes else [];
    tree[d := tree[d][k := FileNode(before + data)]]
  }

  /** Bytes the file keeps in front of what is written. */
  ghost function Front(img: Image, d: nat, k: Key, append: bool): nat {
    if append && Listed(img, d, k) && !IsDirectory(EntryOf(img, d, k)) then Size(EntryOf(img, d, k)) else 0
  }

  ghost function Occupied(img: Image, d: nat, k: Key): nat
    requires img.size > 0
  {
    if Listed(img, d, k) then ClustersFor(img.size, Size(EntryOf(img, d, k))) else 0
  }

  /** How many free clusters the write needs: what the file grows by and, for a new name its
      directory has no room for, one more. */
  ghost function WriteDemand(img: Image, d: nat, name: Str, length: nat, append: bool): int
    requires img.size > 0 && d in img.views && d in img.chains
  {
    var k := Fold(name);
    ClustersFor(img.size, Front(img, d, k, append) + length) - Occupied(img, d, k)
    + if Listed(img, d, k) || HasRun(SlotsOf(img, d), SlotsNeeded(img, d, name)) then 0 else 1
  }

  /** What a write to a name of a directory returns. */
  ghost function WriteAtResult(img: Image, d: nat, name: Str, length: nat, append: bool): Result
    requires img.size > 0 && d in img.views && d in img.chains
  {
    if Listed(img, d, Fold(name)) && IsDirectory(EntryOf(img, d, Fold(name))) then IsADirectory
    else if |FreeClusters(img.fat)| < WriteDemand(img, d, name, length, append) then NoSpace
    else Ok
  }

  /** How many clusters the name's whole data needs. */
  ghost function DataNeed(img: Image, d: nat, k: Key, length: nat, append: bool): nat
    requires img.size > 0
  {
    ClustersFor(img.size, Front(img, d, k, append) + length)
  }

  /** How many clusters the name holds after the write, and how many its directory gains. */
  ghost function HeldAfter(img: Image, d: nat, k: Key, length: nat, append: bool): nat
    requires img.size > 0
  {
    FittedLength(|HeldBy(img, d, k)|, Occupied(img, d, k), DataNeed(img, d, k, length, append), !append)
  }

  ghost function DirectoryGrowth(img: Image, d: nat, name: Str): nat
    requires d in img.views && d in img.chains
  {
    if Listed(img, d, Fold(name)) then 0 else Growth(img, d, SlotsNeeded(img, d, name))
  }

  /** What a write to a name of a directory does to the clusters. */
  ghost predicate WriteAccounts(img: Image, img': Image, d: nat, name: Str, length: nat, append: bool, r: Result)
    requires img.size > 0 && d in img.views && d in img.chains
  {
    if r == Ok then
      && Spent(img, img', d, Fold(name), DirectoryGrowth(img, d, name))
      && |HeldBy(img', d, Fold(name))| == HeldAfter(img, d, Fold(name), length, append)
    else if r == NoSpace then
      OutOfRoom(img, img', d, Fold(name), DataNeed(img, d, Fold(name), length, append))
    else img' == img
  }

  /** A write that ran out of space leaves the free clusters as they were if and only if there were
      none, or the name held none and its data does not fit; otherwise it leaves none. */
  lemma WriteLeaks(img: Image, img': Image, d: nat, name: Str, length: nat, append: bool)
    requires img.size > 0 && d in img.views && d in img.chains
    requires WriteAccounts(img, img', d, name, length, append, NoSpace)
    ensures var k := Fold(name);
            FreeClusters(img'.fat) == FreeClusters(img.fat) <==>
            FreeClusters(img.fat) == {}
            || (HeldBy(img, d, k) == [] && |FreeClusters(img.fat)| < DataNeed(img, d, k, length, append))
    ensures FreeClusters(img'.fat) == FreeClusters(img.fat) || FreeClusters(img'.fat) == {}
  {
    hide FreeClusters, HeldBy, DataNeed, Fold;
  }

  lemma AccountsRewrite(img: Image, img': Image, d: nat, name: Str, length: nat, append: bool, r: Result)
    requires img.size > 0 && d in img.views && d in img.chains && Listed(img, d, Fold(name))
    requires r == Ok || r == NoSpace
    requires r == Ok ==>
               Spent(img, img', d, Fold(name), 0)
               && |HeldBy(img', d, Fold(name))| == HeldAfter(img, d, Fold(name), length, append)
    requires r == NoSpace ==> OutOfRoom(img, img', d, Fold(name), DataNeed(img, d, Fold(name), length, append))
    ensures WriteAccounts(img, img', d, name, length, append, r)
  {
    hide Spent, OutOfRoom, HeldBy, HeldAfter, DataNeed, Fold;
  }

  lemma AccountsCreate(img: Image, img': Image, d: nat, name: Str, length: nat, append: bool, r: Result)
    requires img.size > 0 && d in img.views && d in img.chains && !Listed(img, d, Fold(name))
    requires r == Ok || r == NoSpace
    requires r == Ok ==>
               Spent(img, img', d, Fold(name), Growth(img, d, SlotsNeeded(img, d, name)))
               && |HeldBy(img', d, Fold(name))| == ClustersFor(img.size, length)
    requires r == NoSpace ==> OutOfRoom(img, img', d, Fold(name), ClustersFor(img.size, length))
    ensures WriteAccounts(img, img', d, name, length, append, r)
  {
    NoneHeld(img, d, Fold(name));
    hide Spent, OutOfRoom, HeldBy, SlotsNeeded, Growth, ClustersFor, Fold;
  }

  lemma AccountsSame(img: Image, d: nat, name: Str, length: nat, append: bool, r: Result)
    requires img.size > 0 && d in img.views && d in img.chains && r != Ok && r != NoSpace
    ensures WriteAccounts(img, img, d, name, length, append, r)
  {
  }

  lemma HeldAfterIs(img: Image, d: nat, k: Key, length: nat, append: bool)
    requires img.size > 0
    ensures HeldAfter(img, d, k, length, append) ==
            FittedLength(|HeldBy(img, d, k)|, Occupied(img, d, k),
              ClustersFor(img.size, Front(img, d, k, append) + length), !append)
    ensures DataNeed(img, d, k, length, append) == ClustersFor(img.size, Front(img, d, k, append) + length)
  {
    hide FittedLength, HeldBy, Occupied, ClustersFor, Front;
  }

  ghost function WriteResult(img: Image, path: Str, length: nat, append: bool): Result
    requires ValidImage(img)
  {
    LocatedPlace(img, path);
    match Locate(img, path)
    case Fails(e) => e
    case In(d, name) => WriteAtResult(img, d, name, length, append)
  }

  lemma LocatedPlace(img: Image, path: Str)
    requires ValidImage(img)
    ensures img.size > 0
    ensures match Locate(img, path)
            case Fails(e) => e == InvalidName || e == NotFound || e == NotADirectory
            case In(d, name) =>
              d in img.views && d in img.chains && d in Tree(img) && ValidName(name) && !IsDot(Fold(name))
  {
    hide AllPlaced, AllOwners, AllEntries, AllSlots, Walk, ValidName, FirstCluster, IsDirectory, IsDot, Listing;
    if Locate(img, path).In? {
      LocatedDir(img, path);
    }
  }

  ghost function PriorSize(img: Image, path: Str, append: bool): nat {
    match Locate(img, path)
    case Fails(_) => 0
    case In(d, name) => Front(img, d, Fold(name), append)
  }

  /** Out of space, a file's chain may have grown; what it holds has not changed. */
  method KeepGrowth(vol: Volume, ghost img: Image, ghost d: nat, ghost k: Key, ghost cs': seq<nat>, ghost needed: nat)
    requires vol.store.Valid() && ValidImage(img)
    requires vol.Now() == img.(fat := vol.store.table.View(), disk := vol.store.disk[..])
    requires Listed(img, d, k) && !IsDot(k) && !IsDirectory(EntryOf(img, d, k))
    requires Extended(img.fat, vol.store.table.View(), img.disk, vol.store.disk[..],
             OldChain(img.chains, FirstCluster(EntryOf(img, d, k))), cs', img.size)
    requires RanOut(img.fat, vol.store.table.View(), img.disk, vol.store.disk[..], HeldBy(img, d, k), cs')
    modifies vol
    ensures vol.Valid() && Tree(vol.Now()) == Tree(img)
    ensures |FreeClusters(img.fat)| < needed ==> OutOfRoom(img, vol.Now(), d, k, needed)
  {
    hide *;
    VolumeIs(vol, img);
    HeldIs(img, d, k);
    ghost var f := FirstCluster(EntryOf(img, d, k));
    RanOutKeeps(img, d, k, cs', vol.store.table.View(), vol.store.disk[..], needed);
    GrowthKept(img, f, cs', vol.store.table.View(), vol.store.disk[..]);
    vol.Adopt(img.(fat := vol.store.table.View(), disk := vol.store.disk[..],
                   chains := if f in img.chains then img.chains[f := cs'] else img.chains));
  }

  /** What a write without the room for it leaves.  If the name held nothing and its data does not
      fit, nothing has changed.  Otherwise no cluster is left free: a file keeps all of them, and those
      taken for a new name belong to none. */
  ghost predicate OutOfRoom(img: Image, img': Image, d: nat, k: Key, needed: nat) {
    && img' == img.(fat := img'.fat, disk := img'.disk, chains := img'.chains)
    && if HeldBy(img, d, k) == [] then
         && img'.chains == img.chains
         && if |FreeClusters(img.fat)| < needed then img'.fat == img.fat else FreeClusters(img'.fat) == {}
       else
         && FreeClusters(img'.fat) == {} && HeldBy(img, d, k) <= HeldBy(img', d, k)
         && |HeldBy(img', d, k)| == |HeldBy(img, d, k)| + |FreeClusters(img.fat)|
         && forall h | h in img.chains && h !in HeldBy(img, d, k) :: h in img'.chains && img'.chains[h] == img.chains[h]
  }

  lemma RanOutKeeps(img: Image, d: nat, k: Key, cs': seq<nat>, fat': Table, disk': Disk, needed: nat)
    requires ValidImage(img) && Listed(img, d, k)
    requires Extended(img.fat, fat', img.disk, disk', HeldBy(img, d, k), cs', img.size)
    requires RanOut(img.fat, fat', img.disk, disk', HeldBy(img, d, k), cs')
    ensures OldChain(img.chains, FirstCluster(EntryOf(img, d, k))) == HeldBy(img, d, k)
    ensures OldChain(img.chains, FirstCluster(EntryOf(img, d, k))) == [] ==> cs' == []
    ensures var f := FirstCluster(EntryOf(img, d, k));
            var img' := img.(fat := fat', disk := disk',
                             chains := if f in img.chains then img.chains[f := cs'] else img.chains);
            |FreeClusters(img.fat)| < needed ==> OutOfRoom(img, img', d, k, needed)
  {
    ValidParts(img);
    var f := FirstCluster(EntryOf(img, d, k));
    HeldIsChain(img, f);
    hide ValidImage, Storage, Linked, AllSlots, FirstCluster, FreeClusters, IsChain, AgreeOff, Zeroed, OutOfRoom,
         HeldBy;
    var img' := img.(fat := fat', disk := disk',
                     chains := if f in img.chains then img.chains[f := cs'] else img.chains);
    HeldIs(img, d, k);
    HeldIs(img', d, k);
    if |FreeClusters(img.fat)| < needed {
      if f !in img.chains {
        OutOfRoomSame(img, img', d, k, needed);
      } else {
        OutOfRoomGrown(img, img', d, k, needed, cs');
      }
    }
  }

  lemma OutOfRoomGrown(img: Image, img': Image, d: nat, k: Key, needed: nat, cs': seq<nat>)
    requires img' == img.(fat := img'.fat, disk := img'.disk, chains := img'.chains) && Listed(img, d, k)
    requires var f := FirstCluster(EntryOf(img, d, k));
             f in img.chains && f in img.chains[f] && img'.chains == img.chains[f := cs']
               && HeldBy(img, d, k) == img.chains[f]
    requires FreeClusters(img'.fat) == {} && HeldBy(img, d, k) <= cs'
             && |cs'| == |HeldBy(img, d, k)| + |FreeClusters(img.fat)|
    ensures OutOfRoom(img, img', d, k, needed)
  {
    hide FreeClusters, FirstCluster;
    assert HeldBy(img', d, k) == cs';
  }

  lemma GrowthKept(img: Image, f: nat, cs': seq<nat>, fat': Table, disk': Disk)
    requires ValidImage(img) && Extended(img.fat, fat', img.disk, disk', OldChain(img.chains, f), cs', img.size)
    requires OldChain(img.chains, f) == [] ==> cs' == []
    ensures var img' := img.(fat := fat', disk := disk', chains := if f in img.chains then img.chains[f := cs']
            else img.chains);
            ValidImage(img') && Tree(img') == Tree(img)
  {
    hide Linked, AllSlots, Tree, IsChain, FreeClusters;
    if f in img.chains {
      NonEmptyChain(img, f);
      GrowStep(img, f, cs', fat', disk');
    } else {
      assert fat' == img.fat;
      assert disk' == img.disk;
    }
  }

  lemma NonEmptyChain(img: Image, f: nat)
    requires Storage(img) && f in img.chains
    ensures img.chains[f] != []
  {
    assert ChainAt(img.fat, img.chains, f);
  }

  lemma HeldIs(img: Image, d: nat, k: Key)
    requires Listed(img, d, k)
    ensures HeldBy(img, d, k) == OldChain(img.chains, FirstCluster(EntryOf(img, d, k)))
  {
  }

  lemma RewriteStart(vol: Volume, d: nat, k: Key, ref: EntryRef, append: bool)
    requires vol.Valid() && Listed(vol.Now(), d, k) && !IsDot(k) && !IsDirectory(EntryOf(vol.Now(), d, k))
    requires ref == RefOf(vol.views[d][k])
    ensures var img := vol.Now();
            var size := Size(ref.entry);
            var cs := OldChain(img.chains, FirstCluster(ref.entry));
            var current := ClustersFor(vol.store.size, size);
            && vol.store.Valid() && ValidImage(img) && ref.entry == EntryOf(img, d, k) && d in img.chains
            && current <= |cs|
            && (if current == 0 then cs == [] && FirstCluster(ref.entry) == 0
                else IsChain(vol.store.table.View(), cs) && cs[0] == FirstCluster(ref.entry))
            && Content(vol.store, cs) == ChainBytes(img.disk, cs) && size <= |Content(vol.store, cs)|
            && Front(img, d, k, append) == (if append then size else 0) && Occupied(img, d, k) == current
            && (size == 0 <==> current == 0) && vol.store.size > 0 && d in Tree(img)
  {
    FileChain(vol.Now(), d, k);
    InTree(vol.Now(), d);
    ClustersForCovers(vol.store.size, Size(ref.entry));
    hide ValidImage, FirstCluster, Size, IsDirectory, ClustersFor, IsChain, ChainBytes;
  }

  lemma WrittenMeans(img: Image, d: nat, k: Key, data: seq<Byte>, append: bool, bytes: seq<Byte>)
    requires ValidImage(img) && Listed(img, d, k) && !IsDot(k) && !IsDirectory(EntryOf(img, d, k))
    requires var e := EntryOf(img, d, k);
             var before := ChainBytes(img.disk, OldChain(img.chains, FirstCluster(e)));
             var start := if append then Size(e) else 0;
             start <= |before| && bytes == before[..start] + data
    ensures d in Tree(img)
    ensures Tree(img)[d := Tree(img)[d][k := FileNode(bytes)]] == WrittenTree(Tree(img), d, k, data, append)
  {
    hide ValidImage, FirstCluster, Size, IsDirectory, IsChain, ChainBytes, NodeOf, ClustersFor, IsDot, Tree;
    FileChain(img, d, k);
    TreeHolds(img, d, k);
  }

  lemma TreeHolds(img: Image, d: nat, k: Key)
    requires Listed(img, d, k) && !IsDot(k)
    ensures d in Tree(img) && k in Tree(img)[d] && Tree(img)[d][k] == NodeOf(img, EntryOf(img, d, k))
  {
    hide NodeOf, IsDot;
  }

  lemma SizeLimit()
    ensures MAX_FILE_SIZE == 0xFFFF_EFFF
  {
  }

  lemma NowChanged(vol: Volume, img: Image)
    requires vol.store.size == img.size && vol.root as nat == img.root
    requires vol.chains == img.chains && vol.views == img.views && vol.owner == img.owner && vol.paths == img.paths
    ensures vol.Now() == img.(fat := vol.store.table.View(), disk := vol.store.disk[..])
  {
  }

  lemma FilledNow(vol: Volume, img: Image, d: nat, k: Key, first: nat, start: nat, data: seq<Byte>, cs': seq<nat>,
                  spare: seq<nat>, mid: Disk)
    requires Listed(img, d, k) && !IsDot(k) && !IsDirectory(EntryOf(img, d, k)) && d in img.chains
    requires Fitted(img.fat, vol.store.table.View(), OldChain(img.chains, FirstCluster(EntryOf(img, d, k))), cs', spare)
    requires Zeroed(img.disk, mid, spare, img.size) && ValidDisk(mid, img.size) && DiskOff(mid, vol.store.disk[..], cs')
    requires first == (if cs' == [] then 0 else cs'[0]) && (cs' != [] ==> IsChain(vol.store.table.View(), cs'))
    requires start <= |ChainBytes(img.disk, OldChain(img.chains, FirstCluster(EntryOf(img, d, k))))|
    requires |cs'| == 0 <==> start + |data| == 0
    requires start + |data| <= |cs'| * img.size && start + |data| < 0x1_0000_0000
    requires start + |data| <= |Content(vol.store, cs')|
    requires Content(vol.store, cs')[..start + |data|] ==
             ChainBytes(img.disk, OldChain(img.chains, FirstCluster(EntryOf(img, d, k))))[..start] + data
    ensures var bytes := ChainBytes(img.disk, OldChain(img.chains, FirstCluster(EntryOf(img, d, k))))[..start] + data;
            && |bytes| == start + |data|
            && Filled(img, d, k, first, bytes, cs', spare, vol.store.table.View(), mid, vol.store.disk[..])
  {
    hide FirstCluster, IsDirectory, IsChain, ChainBytes, Fitted, Zeroed, ValidDisk, DiskOff, Size, IsDot;
  }

  method RewriteFile(vol: Volume, dir: U32, ghost k: Key, ref: EntryRef, data: seq<Byte>, append: bool)
                     returns (r: Result)
    requires vol.Valid() && Listed(vol.Now(), dir, k) && !IsDot(k) && !IsDirectory(EntryOf(vol.Now(), dir, k))
    requires ref == RefOf(vol.views[dir][k])
    requires Front(vol.Now(), dir, k, append) + |data| <= MAX_FILE_SIZE
    modifies vol, vol.store.disk, vol.store.table.entries
    ensures vol.Valid()
    ensures r == if |FreeClusters(old(vol.store.table.View()))| <
                    ClustersFor(vol.store.size,
                      old(Front(vol.Now(), dir, k, append)) + |data|) - old(Occupied(vol.Now(), dir, k))
                 then NoSpace else Ok
    ensures dir as nat in old(Tree(vol.Now()))
    ensures r == NoSpace ==> Tree(vol.Now()) == old(Tree(vol.Now()))
    ensures r == Ok ==> Tree(vol.Now()) == WrittenTree(old(Tree(vol.Now())), dir, k, data, append)
    ensures r == Ok ==>
              Spent(old(vol.Now()), vol.Now(), dir, k, 0)
              && |HeldBy(vol.Now(), dir, k)| ==
                 FittedLength(|HeldBy(old(vol.Now()), dir, k)|, old(Occupied(vol.Now(), dir, k)),
                   ClustersFor(vol.store.size, old(Front(vol.Now(), dir, k, append)) + |data|), !append)
    ensures r == NoSpace ==>
              OutOfRoom(old(vol.Now()), vol.Now(), dir, k,
                ClustersFor(vol.store.size, old(Front(vol.Now(), dir, k, append)) + |data|))
  {
    hide *;
    ghost var img := vol.Now();
    ghost var d: nat := dir;
    RewriteStart(vol, dir, k, ref, append);
    VolumeIs(vol, img);
    var first: U32 := FirstCluster(ref.entry);
    ghost var cs := OldChain(img.chains, first);
    HeldIs(img, d, k);
    var start := if append then Size(ref.entry) else 0;
    var required := ClustersFor(vol.store.size, start + |data|);
    var current := ClustersFor(vol.store.size, Size(ref.entry));
    ClustersForCovers(vol.store.size, start + |data|);
    var first';
    ghost var cs', spare, mid;
    r, first', cs', spare, mid := StoreData(vol.store, first, current, required, start, data, !append, cs);
    NowChanged(vol, img);
    if r != Ok {
      KeepGrowth(vol, img, d, k, cs', required);
      return;
    }
    SizeLimit();
    FilledNow(vol, img, d, k, first', start, data, cs', spare, mid);
    ghost var bytes := ChainBytes(img.disk, cs)[..start] + data;
    r := FinishRewrite(vol, img, dir, k, ref, first', start + |data|, bytes, cs', spare, mid);
    WrittenMeans(img, d, k, data, append, bytes);
  }

  // -------------------------------------------------------- a new file is created

  /** The stored data of a file that has no name yet. */
  lemma UnnamedFile(img: Image, d: nat, fat': Table, mid: Disk, disk': Disk, first: nat, data: seq<Byte>, cs: seq<nat>,
                    spare: seq<nat>)
    requires ValidImage(img) && d in img.views && |data| < 0x1_0000_0000
    requires Fitted(img.fat, fat', [], cs, spare)
    requires Zeroed(img.disk, mid, spare, img.size) && DiskOff(mid, disk', cs) && ValidDisk(disk', img.size)
    requires first == (if cs == [] then 0 else cs[0]) && (cs != [] ==> IsChain(fat', cs))
    requires |cs| == ClustersFor(img.size, |data|) && |data| <= |cs| * img.size
    requires |data| <= |ChainBytes(disk', cs)| && ChainBytes(disk', cs)[..|data|] == data
    ensures var img1 := img.(fat := fat', disk := disk');
            && ValidImage(img1) && Tree(img1) == Tree(img) && SameDirectory(img, img1, d)
            && FreeClusters(fat') == FreeClusters(img.fat) - SetOf(cs)
            && |FreeClusters(fat')| == |FreeClusters(img.fat)| - |cs|
            && Newcomer(img1, d, ATTR_ARCHIVE, first, |data|, cs, map[])
            && NewNode(img1, ATTR_ARCHIVE, first, |data|, cs) == FileNode(data)
  {
    ValidParts(img);
    FittedFree(img.fat, fat', [], cs, spare);
    assert SetOf([]) == {};
    SpareSpent(img, fat', mid, disk', cs, spare);
    FreeIsUnowned(img, cs + spare);
    ClustersForCovers(img.size, |data|);
    hide Storage, Linked, AllSlots, ValidImage, Tree, IsChain, ChainBytes, FreeClusters, Fitted, Zeroed, ValidDisk,
         ClustersFor;
    OrphanStep(img, fat', disk', cs + spare);
    var img1 := img.(fat := fat', disk := disk');
    DirectorySame(img, img1, d);
    assert Unowned(img1, cs);
    ChainStart(fat', cs);
  }

  lemma ChainStart(fat: Table, cs: seq<nat>)
    requires cs != [] ==> IsChain(fat, cs)
    ensures cs != [] ==> cs[0] < |fat| && cs[0] >= 2
  {
    assert cs != [] ==> LinkAt(fat, cs, 0);
  }

  ghost predicate SameDirectory(img: Image, img1: Image, d: nat) {
    && d in img.chains && d in img1.chains && d in img.views && d in img1.views
    && img1.views[d] == img.views[d] && SlotsOf(img1, d) == SlotsOf(img, d)
  }

  lemma DirectorySame(img: Image, img1: Image, d: nat)
    requires ValidImage(img) && d in img.views && img1.views == img.views && img1.chains == img.chains
    requires forall h | h in img.chains :: Same(img, img1, h)
    ensures SameDirectory(img, img1, d)
  {
    hide Linked, Storage, AllSlots, Same;
    ViewIsChain(img, d);
    SameReads(img, img1, d);
  }

  lemma SpareSpent(img: Image, fat': Table, mid: Disk, disk': Disk, cs: seq<nat>, spare: seq<nat>)
    requires Fitted(img.fat, fat', [], cs, spare) && Zeroed(img.disk, mid, spare, img.size) && DiskOff(mid, disk', cs)
    ensures AgreeOff(img.fat, fat', cs + spare) && DiskOff(img.disk, disk', cs + spare)
    ensures forall c | c in cs + spare :: IsFree(img.fat, c)
  {
    assert [] + cs == cs;
    hide IsChain;
  }

  lemma SameGrowth(img: Image, img1: Image, d: nat, name: Str)
    requires SameDirectory(img, img1, d)
    ensures Growth(img1, d, SlotsNeeded(img1, d, name)) == Growth(img, d, SlotsNeeded(img, d, name))
  {
    hide HasRun, SlotsOf, PiecesFor, UsedNames;
  }

  lemma FullIsEmpty(img: Image, d: nat, needed: nat)
    ensures DirectoryFull(img, d, needed) ==> FreeClusters(img.fat) == {}
  {
    hide HasRun, SlotsOf, FreeClusters;
  }

  /** With the file stored, its directory is full exactly when no free cluster is left for it. */
  lemma FullAfter(img: Image, img1: Image, d: nat, name: Str, required: nat)
    requires SameDirectory(img, img1, d)
    requires |FreeClusters(img1.fat)| == |FreeClusters(img.fat)| - required
    ensures DirectoryFull(img1, d, SlotsNeeded(img1, d, name)) <==>
              !HasRun(SlotsOf(img, d), SlotsNeeded(img, d, name)) && |FreeClusters(img.fat)| == required
  {
    hide HasRun, SlotsOf, PiecesFor, UsedNames, FreeClusters;
  }

  lemma CreateStart(vol: Volume, d: nat, name: Str, length: nat, append: bool)
    requires vol.Valid() && d in vol.views && d in vol.chains && !Listed(vol.Now(), d, Fold(name))
    ensures vol.store.Valid() && ValidImage(vol.Now()) && vol.store.size > 0 && d in Tree(vol.Now())
            && Fold(name) !in vol.views[d]
    ensures WriteDemand(vol.Now(), d, name, length, append) ==
            ClustersFor(vol.store.size, length) +
            (if HasRun(SlotsOf(vol.Now(), d), SlotsNeeded(vol.Now(), d, name)) then 0 else 1)
  {
    hide ValidImage, ClustersFor, HasRun, SlotsOf, SlotsNeeded, Listing;
  }

  lemma NoneHeld(img: Image, d: nat, k: Key)
    ensures !Listed(img, d, k) ==> HeldBy(img, d, k) == []
  {
  }

  /** Without room for the data of a new name nothing has changed; without room for its entry no
      cluster is left. */
  lemma OutOfRoomSame(img: Image, img': Image, d: nat, k: Key, needed: nat)
    requires HeldBy(img, d, k) == []
    requires img' == img.(fat := img'.fat, disk := img'.disk)
    requires if |FreeClusters(img.fat)| < needed then img'.fat == img.fat else FreeClusters(img'.fat) == {}
    ensures OutOfRoom(img, img', d, k, needed)
  {
    hide FreeClusters;
  }

  lemma NothingStored(vol: Volume, img: Image, cs': seq<nat>)
    requires RanOut(img.fat, vol.store.table.View(), img.disk, vol.store.disk[..], [], cs')
    ensures vol.store.table.View() == img.fat && vol.store.disk[..] == img.disk
  {
    hide FreeClusters;
  }

  lemma NoFront(store: Store, cs: seq<nat>, data: seq<Byte>)
    ensures Content(store, cs) == ChainBytes(store.disk[..], cs)
    ensures forall before: seq<Byte> :: before[..0] + data == data
  {
  }

  lemma ValidAgain(vol: Volume, img: Image)
    requires vol.store.Valid() && vol.Now() == img.(fat := vol.store.table.View(), disk := vol.store.disk[..])
    requires ValidImage(img.(fat := vol.store.table.View(), disk := vol.store.disk[..]))
    ensures vol.Valid()
  {
    hide ValidImage;
  }

  lemma CreatedMeans(img: Image, d: nat, k: Key, data: seq<Byte>, append: bool)
    requires d in img.views && !Listed(img, d, k)
    ensures d in Tree(img)
            && AttachedTree(Tree(img), d, k, FileNode(data)) == WrittenTree(Tree(img), d, k, data, append)
  {
    hide NodeOf, IsDot;
    assert k !in Tree(img)[d];
    assert [] + data == data;
  }

  method CreateFile(vol: Volume, dir: U32, name: Str, data: seq<Byte>, append: bool) returns (r: Result)
    requires vol.Valid() && vol.SmallDirectories() && dir as nat in vol.views && dir as nat in vol.chains
    requires ValidName(name) && !Listed(vol.Now(), dir, Fold(name))
    requires |data| <= MAX_FILE_SIZE
    modifies vol, vol.store.disk, vol.store.table.entries
    ensures vol.Valid()
    ensures r == if |FreeClusters(old(vol.store.table.View()))| < old(WriteDemand(vol.Now(), dir, name, |data|,
            append)) then NoSpace else Ok
    ensures dir as nat in old(Tree(vol.Now()))
    ensures r == NoSpace ==> Tree(vol.Now()) == old(Tree(vol.Now()))
    ensures r == Ok ==> Tree(vol.Now()) == WrittenTree(old(Tree(vol.Now())), dir, Fold(name), data, append)
    ensures r == Ok ==>
              Spent(old(vol.Now()), vol.Now(), dir, Fold(name),
                old(Growth(vol.Now(), dir, SlotsNeeded(vol.Now(), dir, name))))
              && |HeldBy(vol.Now(), dir, Fold(name))| == ClustersFor(vol.store.size, |data|)
    ensures r == NoSpace ==>
              OutOfRoom(old(vol.Now()), vol.Now(), dir, Fold(name), ClustersFor(vol.store.size, |data|))
  {
    hide *;
    ghost var img := vol.Now();
    ghost var d: nat := dir;
    NoneHeld(img, d, Fold(name));
    CreateStart(vol, d, name, |data|, append);
    VolumeIs(vol, img);
    var required := ClustersFor(vol.store.size, |data|);
    ClustersForCovers(vol.store.size, |data|);
    var first;
    ghost var cs, spare, mid;
    r, first, cs, spare, mid := StoreData(vol.store, 0, 0, required, 0, data, !append, []);
    NowChanged(vol, img);
    if r != Ok {
      NothingStored(vol, img, cs);
      OutOfRoomSame(img, img, d, Fold(name), required);
      vol.Adopt(img);
      return;
    }
    DiskIsValid(vol.store, cs);
    SizeLimit();
    NoFront(vol.store, cs, data);
    UnnamedFile(img, d, vol.store.table.View(), mid, vol.store.disk[..], first, data, cs, spare);
    FullAfter(img, vol.Now(), d, name, required);
    ValidAgain(vol, img);
    ghost var img1 := vol.Now();
    FullIsEmpty(img1, d, SlotsNeeded(img1, d, name));
    r := EnterName(vol, dir, name, ATTR_ARCHIVE, first, |data|, cs, map[]);
    if r == Ok {
      SameGrowth(img, img1, d, name);
      EnteredSpent(img, img1, vol.Now(), d, Fold(name), cs, Growth(img1, d, SlotsNeeded(img1, d, name)));
    } else {
      OutOfRoomSame(img, img1, d, Fold(name), required);
    }
    CreatedMeans(img, d, Fold(name), data, append);
  }

  /** `fat32_write_file`: creates, overwrites or appends to one file; every other file and
      directory is as before, and so is this one when the write fails. */
  method WriteFile(vol: Volume, path: Str, data: seq<Byte>, append: bool) returns (r: Result)
    requires vol.Valid() && vol.SmallDirectories() && ParentFits(path)
    requires PriorSize(vol.Now(), path, append) + |data| <= MAX_FILE_SIZE
    modifies vol, vol.store.disk, vol.store.table.entries
    ensures vol.Valid()
    ensures r == old(WriteResult(vol.Now(), path, |data|, append))
    ensures r != Ok ==> Tree(vol.Now()) == old(Tree(vol.Now()))
    ensures r == Ok ==> var l := old(Locate(vol.Now(), path));
                        && l.In? && l.dir in old(Tree(vol.Now()))
                        && Tree(vol.Now()) == WrittenTree(old(Tree(vol.Now())), l.dir, Fold(l.name), data, append)
    ensures var img, l := old(vol.Now()), old(Locate(vol.Now(), path));
            if l.Fails? then vol.Now() == img
            else
              && img.size > 0 && l.dir in img.views && l.dir in img.chains
              && WriteAccounts(img, vol.Now(), l.dir, l.name, |data|, append, r)
  {
    hide *;
    ghost var img := vol.Now();
    vol.Parts();
    LocatedPlace(img, path);
    VolumeIs(vol, img);
    WriteCases(img, path, |data|, append);
    if Locate(img, path).In? {
      DemandCases(img, Locate(img, path).dir, Locate(img, path).name, |data|, append);
    }
    var dir, name, parent;
    r, dir, name, parent := LookupParentAndName(vol, path);
    if r != Ok {
      return;
    }
    var found, ref := vol.FindIn(dir.first, name);
    vol.ListedMeans(dir.first, Fold(name));
    if found == Ok {
      RefEntry(vol.views[dir.first][Fold(name)]);
      HeldAfterIs(img, dir.first, Fold(name), |data|, append);
      if IsDirectory(ref.entry) {
        AccountsSame(img, dir.first, name, |data|, append, IsADirectory);
        return IsADirectory;
      }
      r := RewriteFile(vol, dir.first, Fold(name), ref, data, append);
      AccountsRewrite(img, vol.Now(), dir.first, name, |data|, append, r);
    } else {
      r := CreateFile(vol, dir.first, name, data, append);
      AccountsCreate(img, vol.Now(), dir.first, name, |data|, append, r);
    }
  }

  lemma WriteCases(img: Image, path: Str, length: nat, append: bool)
    requires ValidImage(img)
    ensures match Locate(img, path)
            case Fails(e) => WriteResult(img, path, length, append) == e && e != Ok
            case In(d, name) =>
              && img.size > 0 && d in img.views && d in img.chains
              && PriorSize(img, path, append) == Front(img, d, Fold(name), append)
              && WriteResult(img, path, length, append) == WriteAtResult(img, d, name, length, append)
  {
    LocatedPlace(img, path);
    hide ValidImage, Locate, WriteAtResult, Front, Fold, Tree;
  }

  lemma DemandCases(img: Image, d: nat, name: Str, length: nat, append: bool)
    requires img.size > 0 && d in img.views && d in img.chains
    ensures !Listed(img, d, Fold(name)) ==> Front(img, d, Fold(name), append) == 0
    ensures Listed(img, d, Fold(name)) ==>
              WriteDemand(img, d, name, length, append) ==
              ClustersFor(img.size, Front(img, d, Fold(name), append) + length) - Occupied(img, d, Fold(name))
    ensures WriteAtResult(img, d, name, length, append) ==
              if Listed(img, d, Fold(name)) && IsDirectory(EntryOf(img, d, Fold(name))) then IsADirectory
              else if |FreeClusters(img.fat)| < WriteDemand(img, d, name, length, append) then NoSpace else Ok
  {
    hide IsDirectory, HasRun, SlotsNeeded, SlotsOf, ClustersFor, Occupied, Fold, Listed, FreeClusters, EntryOf, Size;
  }

  /** `fat32_read_file`: the chunks handed to the callback, put together, are the file's bytes. */
  method ReadFile(vol: Volume, path: Str) returns (r: Result, out: seq<Byte>)
    requires vol.Valid()
    ensures match Walk(vol.Now(), vol.root, Components(path))
            case Error(e) => r == e
            case Itself(_) => r == IsADirectory
            case Named(d, k) =>
              if IsDirectory(EntryOf(vol.Now(), d, k)) then r == IsADirectory
              else r == Ok && d in Tree(vol.Now()) && k in Tree(vol.Now())[d] && Tree(vol.Now())[d][k] == FileNode(out)
  {
    hide *;
    out := [];
    vol.Parts();
    VolumeIs(vol, vol.Now());
    vol.RootIsDirectory();
    var isRoot, entry;
    r, isRoot, entry := vol.ResolvePath(path);
    if r != Ok {
      WalkFails(vol.Now(), vol.root, Components(path));
      return;
    }
    WalkFails(vol.Now(), vol.root, Components(path));
    if isRoot || IsDirectory(entry) {
      return IsADirectory, out;
    }
    ghost var t := Walk(vol.Now(), vol.root, Components(path));
    WalkIsLinked(vol.Now(), vol.root, Components(path));
    ReadStart(vol, t.dir, t.key);
    r, out := ReadChain(vol.store, FirstCluster(entry), Size(entry), OldChain(vol.chains, FirstCluster(entry)));
  }

  lemma WalkFails(img: Image, d: nat, comps: seq<Str>)
    ensures Walk(img, d, comps).Error? ==> Walk(img, d, comps).result != Ok
  {
  }

  lemma WalkIsLinked(img: Image, d: nat, comps: seq<Str>)
    requires ValidImage(img) && d in img.views
    ensures var t := Walk(img, d, comps); t.Named? ==> Listed(img, t.dir, t.key) && !IsDot(t.key)
  {
    hide Storage, AllSlots, Walk, Linked;
    WalkStays(img, d, comps);
  }

  lemma ReadStart(vol: Volume, d: nat, k: Key)
    requires vol.Valid() && Listed(vol.Now(), d, k) && !IsDot(k) && !IsDirectory(EntryOf(vol.Now(), d, k))
    ensures var e := EntryOf(vol.Now(), d, k);
            var cs := OldChain(vol.chains, FirstCluster(e));
            && vol.store.Valid()
            && (if FirstCluster(e) == 0 then cs == []
                else IsChain(vol.store.table.View(), cs) && cs[0] == FirstCluster(e))
            && Size(e) <= |Content(vol.store, cs)|
            && d in Tree(vol.Now()) && k in Tree(vol.Now())[d]
            && Tree(vol.Now())[d][k] == FileNode(Content(vol.store, cs)[..Size(e)])
  {
    FileChain(vol.Now(), d, k);
    TreeHolds(vol.Now(), d, k);
    hide ValidImage, FirstCluster, Size, IsDirectory, ClustersFor, IsChain, ChainBytes, Tree, NodeOf;
    ChainHead(vol.Now().fat, OldChain(vol.chains, FirstCluster(EntryOf(vol.Now(), d, k))));
  }

  lemma ChainHead(fat: Table, cs: seq<nat>)
    ensures cs != [] && IsChain(fat, cs) ==> cs[0] != 0
  {
    assert cs != [] && IsChain(fat, cs) ==> LinkAt(fat, cs, 0);
  }
}
