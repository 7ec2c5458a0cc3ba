/** The steps operations are made of: how one change of storage or registry keeps the volume
    invariant, and what it does to the file system. */
module FatSteps {
  import opened Bytes
  import opened FatSlots
  import opened FatTables
  import opened FatBlocks
  import opened FatStore
  import opened FatDirectory
  import opened FatImage

  /** The disks agree outside `touched`. */
  ghost predicate DiskOff(disk: Disk, disk': Disk, touched: seq<nat>) {
    && |disk'| == |disk|
    && forall c | 0 <= c < |disk| && c !in touched :: disk'[c] == disk[c]
  }

  ghost predicate Unowned(img: Image, touched: seq<nat>) {
    forall h | h in img.chains :: Apart(img.chains[h], touched)
  }

  // ---------------------------------------------------- unowned clusters

  lemma FreeIsUnowned(img: Image, cs: seq<nat>)
    requires Storage(img) && forall c | c in cs :: IsFree(img.fat, c)
    ensures Unowned(img, cs)
  {
    forall h | h in img.chains ensures Apart(img.chains[h], cs) {
      assert ChainAt(img.fat, img.chains, h);
      forall c | c in img.chains[h] ensures c !in cs {
        ChainInUse(img.fat, img.chains[h], c);
      }
    }
  }

  /** Whatever happens to clusters no chain owns leaves the volume as it is. */
  lemma OrphanStep(img: Image, fat': Table, disk': Disk, touched: seq<nat>)
    requires ValidImage(img) && Unowned(img, touched)
    requires AgreeOff(img.fat, fat', touched) && DiskOff(img.disk, disk', touched) && ValidDisk(disk', img.size)
    ensures var img' := img.(fat := fat', disk := disk');
            && ValidImage(img') && Tree(img') == Tree(img)
            && forall h | h in img.chains :: Same(img, img', h)
  {
    var img' := img.(fat := fat', disk := disk');
    OrphanStorage(img, fat', disk', touched);
    forall h | h in img.chains ensures Same(img, img', h) {
      assert Apart(img.chains[h], touched);
    }
    forall h | h in img.chains ensures Retained(img, img', h) {
      SameRetained(img, img', h);
    }
    SameRegistry(img, img');
  }

  lemma SameRetained(img: Image, img': Image, h: nat)
    requires ValidImage(img) && Same(img, img', h)
    ensures Retained(img, img', h)
  {
    SameReads(img, img', h);
    hide Storage, Linked, ValidDirectory, SlotsOf, BytesOf;
    if h in img.views {
      assert SlotsOk(img, h);
    }
  }

  lemma OrphanStorage(img: Image, fat': Table, disk': Disk, touched: seq<nat>)
    requires Storage(img) && Unowned(img, touched)
    requires AgreeOff(img.fat, fat', touched) && DiskOff(img.disk, disk', touched) && ValidDisk(disk', img.size)
    ensures Storage(img.(fat := fat', disk := disk'))
  {
    hide IsChain, Apart;
    forall h | h in img.chains ensures ChainAt(fat', img.chains, h) {
      assert ChainAt(img.fat, img.chains, h);
      assert Apart(img.chains[h], touched);
      ChainFrame(img.fat, fat', img.chains[h], touched);
    }
  }

  /** The same registry over storage in which chains may only have gained clusters. */
  ghost predicate Retained(img: Image, img': Image, h: nat)
    requires h in img.chains && h in img'.chains
  {
    && |img.chains[h]| <= |img'.chains[h]| && BytesOf(img, h) <= BytesOf(img', h)
    && (h in img.views ==> ValidDirectory(SlotsOf(img', h), img.views[h]))
  }

  lemma RetainedNode(img: Image, img': Image, e: Slot)
    requires img'.chains.Keys == img.chains.Keys
    requires FirstCluster(e) in img.chains ==>
               Retained(img, img', FirstCluster(e)) && (IsDirectory(e) || Size(e) <= |BytesOf(img, FirstCluster(e))|)
    ensures NodeOf(img', e) == NodeOf(img, e)
  {
  }

  lemma SameRegistry(img: Image, img': Image)
    requires ValidImage(img) && Storage(img')
    requires img' == img.(fat := img'.fat, disk := img'.disk, chains := img'.chains)
    requires img'.chains.Keys == img.chains.Keys
    requires forall h | h in img.chains :: Retained(img, img', h)
    ensures ValidImage(img') && Tree(img') == Tree(img)
  {
    SameLinked(img, img');
    SameTree(img, img');
    hide Storage, Linked, ValidDirectory, SlotsOf, BytesOf, Tree;
    forall d | d in img.views ensures SlotsOk(img', d) {
      assert SlotsOk(img, d);
      assert Retained(img, img', d);
    }
  }

  lemma SameLinked(img: Image, img': Image)
    requires ValidImage(img)
    requires img' == img.(fat := img'.fat, disk := img'.disk, chains := img'.chains)
    requires img'.chains.Keys == img.chains.Keys
    requires forall h | h in img.chains :: Retained(img, img', h)
    ensures Linked(img')
  {
    hide Storage, AllSlots, EntryOk, OwnerOk, Placed, Retained, Listed;
    forall d, k | Listed(img', d, k) ensures EntryOk(img', d, k) {
      SameListed(img, img', d, k);
      SameEntry(img, img', d, k);
    }
    forall d | d in img.views ensures Placed(img', d) {
      SamePlaced(img, img', d);
    }
    forall h | h in img.owner ensures OwnerOk(img', h) {
      SameOwner(img, img', h);
    }
  }

  lemma SameListed(img: Image, img': Image, d: nat, k: Key)
    requires img'.views == img.views && Listed(img', d, k)
    ensures Listed(img, d, k)
  {
  }

  lemma SamePlaced(img: Image, img': Image, d: nat)
    requires d in img.views && Placed(img, d)
    requires img' == img.(fat := img'.fat, disk := img'.disk, chains := img'.chains)
    ensures Placed(img', d)
  {
  }

  lemma SameOwner(img: Image, img': Image, h: nat)
    requires h in img.owner && OwnerOk(img, h)
    requires img' == img.(fat := img'.fat, disk := img'.disk, chains := img'.chains)
    ensures OwnerOk(img', h)
  {
  }

  lemma SameEntry(img: Image, img': Image, d: nat, k: Key)
    requires ValidImage(img) && Listed(img, d, k)
    requires img' == img.(fat := img'.fat, disk := img'.disk, chains := img'.chains)
    requires img'.chains.Keys == img.chains.Keys
    requires forall h | h in img.chains :: Retained(img, img', h)
    ensures EntryOk(img', d, k)
  {
    hide Storage, AllPlaced, AllSlots, AllOwners, Registered, FirstCluster, Size, IsDirectory, IsDot, BytesOf, SlotsOf,
         ValidDirectory;
    assert EntryOk(img, d, k);
    var f := FirstCluster(EntryOf(img, d, k));
    if f in img.chains {
      assert Retained(img, img', f);
      Product(|img.chains[f]|, |img'.chains[f]|, img.size);
    }
  }

  lemma SameTree(img: Image, img': Image)
    requires ValidImage(img)
    requires img' == img.(fat := img'.fat, disk := img'.disk, chains := img'.chains)
    requires img'.chains.Keys == img.chains.Keys
    requires forall h | h in img.chains :: Retained(img, img', h)
    ensures Tree(img') == Tree(img)
  {
    hide Storage, AllPlaced, AllSlots, AllOwners, AllEntries, Registered, FirstCluster, Size, IsDirectory, NodeOf,
         IsDot, BytesOf, Retained;
    forall d | d in img.views ensures Listing(img', d) == Listing(img, d) {
      forall k | k in img.views[d] && !IsDot(k)
        ensures NodeOf(img', img.views[d][k].entry) == NodeOf(img, img.views[d][k].entry)
      {
        assert Listed(img, d, k);
        ListedNode(img, d, k);
        RetainedNode(img, img', img.views[d][k].entry);
      }
    }
  }

  lemma ListedNode(img: Image, d: nat, k: Key)
    requires ValidImage(img) && Listed(img, d, k) && !IsDot(k)
    ensures var e := EntryOf(img, d, k);
            var f := FirstCluster(e);
            && (f in img.chains <==> f != 0)
            && (f in img.chains ==> IsDirectory(e) || Size(e) <= |BytesOf(img, f)|)
  {
    hide Storage, AllPlaced, AllSlots, AllOwners, SlotsOf;
    assert EntryOk(img, d, k);
    if !IsDirectory(EntryOf(img, d, k)) {
      FileBytes(img, d, k);
    }
  }

  // -------------------------------------------------------- growing a chain

  /** A chain gains zeroed free clusters: a directory gains end slots, a file spare room. */
  lemma GrowStep(img: Image, h: nat, cs': seq<nat>, fat': Table, disk': Disk)
    requires ValidImage(img) && h in img.chains && img.chains[h] <= cs'
    requires IsChain(fat', cs') && AgreeOff(img.fat, fat', cs')
    requires forall c | c in cs'[|img.chains[h]|..] :: IsFree(img.fat, c)
    requires |disk'| == |img.disk|
    requires forall c | 0 <= c < |img.disk| ::
        disk'[c] == if c in cs'[|img.chains[h]|..] then Zeros(img.size) else img.disk[c]
    ensures var img' := img.(fat := fat', disk := disk', chains := img.chains[h := cs']);
            && ValidImage(img') && Tree(img') == Tree(img)
            && SlotsOf(img, h) <= SlotsOf(img', h)
            && (forall i: nat | |SlotsOf(img, h)| <= i < |SlotsOf(img', h)| :: IsEnd(SlotsOf(img', h)[i]))
            && BytesOf(img, h) <= BytesOf(img', h)
            && forall k | k in img.chains && k != h :: Same(img, img', k)
  {
    var img' := img.(fat := fat', disk := disk', chains := img.chains[h := cs']);
    GrowStorage(img, h, cs', fat', disk');
    GrowApart(img, h, cs', fat');
    GrowReads(img, h, cs', disk');
    hide Storage, Linked, AllSlots, Same, IsChain, Tree;
    GrowKeeps(img, img', h);
  }

  lemma GrowKeeps(img: Image, img': Image, h: nat)
    requires ValidImage(img) && Storage(img') && h in img.chains && h in img'.chains
    requires img' == img.(fat := img'.fat, disk := img'.disk, chains := img.chains[h := img'.chains[h]])
    requires forall k | k in img.chains && k != h :: Same(img, img', k)
    requires |img.chains[h]| <= |img'.chains[h]| && BytesOf(img, h) <= BytesOf(img', h)
    requires SlotsOf(img, h) <= SlotsOf(img', h)
    requires forall i: nat | |SlotsOf(img, h)| <= i < |SlotsOf(img', h)| :: IsEnd(SlotsOf(img', h)[i])
    ensures ValidImage(img') && Tree(img') == Tree(img)
  {
    hide Storage, ValidImage, SlotsOf, BytesOf, Same, Retained, Tree, IsEnd;
    forall k | k in img.chains ensures Retained(img, img', k) {
      if k == h {
        GrowRetained(img, img', h);
      } else {
        SameRetained(img, img', k);
      }
    }
    SameRegistry(img, img');
  }

  lemma GrowApart(img: Image, h: nat, cs': seq<nat>, fat': Table)
    requires Storage(img) && h in img.chains && img.chains[h] <= cs' && IsChain(fat', cs') && |fat'| == |img.fat|
    requires forall c | c in cs'[|img.chains[h]|..] :: IsFree(img.fat, c)
    ensures Apart(img.chains[h], cs'[|img.chains[h]|..]) && ClustersOn(img.disk, cs')
  {
    FreeIsUnowned(img, cs'[|img.chains[h]|..]);
    forall i | 0 <= i < |cs'| ensures cs'[i] < |img.disk| {
      assert LinkAt(fat', cs', i);
    }
  }

  lemma GrowRetained(img: Image, img': Image, h: nat)
    requires ValidImage(img) && h in img.chains && h in img'.chains
    requires |img.chains[h]| <= |img'.chains[h]| && BytesOf(img, h) <= BytesOf(img', h)
    requires SlotsOf(img, h) <= SlotsOf(img', h)
    requires forall i: nat | |SlotsOf(img, h)| <= i < |SlotsOf(img', h)| :: IsEnd(SlotsOf(img', h)[i])
    ensures Retained(img, img', h)
  {
    hide Storage, Linked, ValidDirectory, SlotsOf, BytesOf;
    if h in img.views {
      assert SlotsOk(img, h);
      var more := SlotsOf(img', h)[|SlotsOf(img, h)|..];
      assert SlotsOf(img', h) == SlotsOf(img, h) + more;
      ExtendValid(SlotsOf(img, h), img.views[h], more);
    }
  }

  lemma GrowStorage(img: Image, h: nat, cs': seq<nat>, fat': Table, disk': Disk)
    requires Storage(img) && h in img.chains && img.chains[h] <= cs'
    requires IsChain(fat', cs') && AgreeOff(img.fat, fat', cs')
    requires forall c | c in cs'[|img.chains[h]|..] :: IsFree(img.fat, c)
    requires |disk'| == |img.disk|
    requires forall c | 0 <= c < |img.disk| ::
        disk'[c] == if c in cs'[|img.chains[h]|..] then Zeros(img.size) else img.disk[c]
    ensures var img' := img.(fat := fat', disk := disk', chains := img.chains[h := cs']);
            && Storage(img')
            && forall k | k in img.chains && k != h :: Same(img, img', k)
  {
    var added := cs'[|img.chains[h]|..];
    assert cs' == img.chains[h] + added;
    assert ChainAt(img.fat, img.chains, h);
    RechainValid(img.fat, fat', img.chains, h, cs');
    assert Rechained(img.chains, h, cs') == img.chains[h := cs'];
    FreeIsUnowned(img, added);
    forall k | k in img.chains && k != h
      ensures Same(img, img.(fat := fat', disk := disk', chains := img.chains[h := cs']), k)
    {
      assert Apart(img.chains[k], added);
    }
  }

  lemma GrowReads(img: Image, h: nat, cs': seq<nat>, disk': Disk)
    requires Storage(img) && h in img.chains && img.chains[h] <= cs' && ClustersOn(img.disk, cs')
    requires Apart(img.chains[h], cs'[|img.chains[h]|..])
    requires |disk'| == |img.disk|
    requires forall c | 0 <= c < |img.disk| ::
        disk'[c] == if c in cs'[|img.chains[h]|..] then Zeros(img.size) else img.disk[c]
    ensures BytesOf(img, h) <= ChainBytes(disk', cs')
    ensures SlotsOf(img, h) <= DirSlots(disk', cs')
    ensures forall i: nat | |SlotsOf(img, h)| <= i < |DirSlots(disk', cs')| :: IsEnd(DirSlots(disk', cs')[i])
  {
    var cs := img.chains[h];
    var added := cs'[|cs|..];
    BlocksFrame(img.disk, disk', cs);
    assert Blocks(disk', cs') == Blocks(disk', cs) + Blocks(disk', added);
    FlatConcat(Blocks(disk', cs), Blocks(disk', added));
    assert SlotBlocks(disk', cs') == SlotBlocks(disk', cs) + SlotBlocks(disk', added);
    FlatConcat(SlotBlocks(disk', cs), SlotBlocks(disk', added));
    ZeroBlocks(disk', added, img.size);
    var more := DirSlots(disk', added);
    assert DirSlots(disk', cs') == SlotsOf(img, h) + more;
    EndsBehind(SlotsOf(img, h), more);
  }

  lemma EndsBehind(slots: seq<Slot>, more: seq<Slot>)
    requires forall i: nat | i < |more| :: IsEnd(more[i])
    ensures forall i: nat | |slots| <= i < |slots + more| :: IsEnd((slots + more)[i])
  {
    forall i: nat | |slots| <= i < |slots + more| ensures IsEnd((slots + more)[i]) {
      assert (slots + more)[i] == more[i - |slots|];
    }
  }

  lemma {:induction false} FlatEnds(blocks: seq<seq<Slot>>)
    requires forall i, j | 0 <= i < |blocks| && 0 <= j < |blocks[i]| :: IsEnd(blocks[i][j])
    ensures forall i: nat | i < |Flat(blocks)| :: IsEnd(Flat(blocks)[i])
    decreases |blocks|
  {
    if blocks != [] {
      FlatEnds(blocks[1..]);
    }
  }

  lemma ZeroBlocks(disk: Disk, added: seq<nat>, size: nat)
    requires forall i | 0 <= i < |added| :: added[i] < |disk| && disk[added[i]] == Zeros(size)
    ensures forall i: nat | i < |DirSlots(disk, added)| :: IsEnd(DirSlots(disk, added)[i])
  {
    ZeroSlots(size);
    FlatEnds(SlotBlocks(disk, added));
  }
}
