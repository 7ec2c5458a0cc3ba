/** Removing a file or an empty directory: fat32_remove. */
module FatRemove {
  import opened Bytes
  import opened FatSlots
  import opened FatTables
  import opened FatBlocks
  import opened FatDirectory
  import opened FatStore
  import opened FatData
  import opened FatImage
  import opened FatSteps
  import opened FatLinks
  import opened FatMoves
  import opened FatLookup
  import opened FatVolume
  import opened FatNaming
  import opened FatWrites

  /** What a removal returns, told from the file system alone. */
  function RemoveAtResult(tree: FileSystem, d: nat, k: Key): Result
    requires d in tree
  {
    if k !in tree[d] then NotFound
    else match tree[d][k]
      case FileNode(_) => Ok
      case DirNode(f) => if f in tree && tree[f] != map[] then DirectoryNotEmpty else Ok
  }

  ghost function RemoveResult(img: Image, path: Str): Result
    requires ValidImage(img)
  {
    LocatedPlace(img, path);
    match Locate(img, path)
    case Fails(e) => e
    case In(d, name) => RemoveAtResult(Tree(img), d, Fold(name))
  }

  /** A listing is empty when only the dots are left. */
  lemma EmptyListing(img: Image, f: nat)
    requires f in img.views
    ensures f in Tree(img)
    ensures Tree(img)[f] == map[] <==> img.views[f].Keys <= {[DOT], [DOT, DOT]}
    ensures img.views[f].Keys <= {[DOT], [DOT, DOT]} <==> forall l | l in img.views[f] :: IsDot(l)
  {
    hide NodeOf;
    var named := set l | l in img.views[f] && !IsDot(l);
    assert Tree(img)[f].Keys == named;
    assert Tree(img)[f] == map[] <==> named == {};
    assert forall l | l in img.views[f] :: l in named <==> !IsDot(l);
  }

  /** What the tree says of a listed name. */
  lemma ListedInTree(img: Image, d: nat, k: Key)
    requires ValidImage(img) && d in img.views && !IsDot(k)
    ensures d in Tree(img) && (k in Tree(img)[d] <==> Listed(img, d, k))
    ensures Listed(img, d, k) ==>
              var e := EntryOf(img, d, k);
              && Tree(img)[d][k] == NodeOf(img, e)
              && (IsDirectory(e) ==> FirstCluster(e) in img.views && FirstCluster(e) in img.chains
                                     && FirstCluster(e) in Tree(img) && Tree(img)[d][k] == DirNode(FirstCluster(e)))
              && (!IsDirectory(e) ==> Tree(img)[d][k].FileNode?)
  {
    hide Storage, Linked, AllSlots, FirstCluster, IsDirectory, Size, IsDot;
    if Listed(img, d, k) {
      EntryKind(img, d, k);
      TreeHolds(img, d, k);
      NodeKind(img, EntryOf(img, d, k));
      InTree(img, FirstCluster(EntryOf(img, d, k)));
      ViewHasChain(img, FirstCluster(EntryOf(img, d, k)));
    }
  }

  lemma RemoveCases(img: Image, d: nat, k: Key)
    requires ValidImage(img) && d in img.views && !IsDot(k)
    ensures d in Tree(img)
    ensures RemoveAtResult(Tree(img), d, k) ==
            if !Listed(img, d, k) then NotFound
            else if IsDirectory(EntryOf(img, d, k)) && FirstCluster(EntryOf(img, d, k)) in img.views
                    && !(img.views[FirstCluster(EntryOf(img, d, k))].Keys <= {[DOT], [DOT, DOT]}) then DirectoryNotEmpty
            else Ok
    ensures Listed(img, d, k) && RemoveAtResult(Tree(img), d, k) == Ok ==> Detachable(img, d, k)
    ensures Listed(img, d, k) && IsDirectory(EntryOf(img, d, k)) ==> FirstCluster(EntryOf(img, d, k)) in img.views
  {
    ListedInTree(img, d, k);
    hide ValidImage, FirstCluster, IsDirectory, Size, IsDot, NodeOf, Tree;
    if Listed(img, d, k) && IsDirectory(EntryOf(img, d, k)) {
      EmptyListing(img, FirstCluster(EntryOf(img, d, k)));
    }
  }

  /** The name's slots marked deleted, its chain not yet freed. */
  lemma NameGone(img: Image, d: nat, k: Key, disk': Disk)
    requires ValidImage(img) && Detachable(img, d, k) && d in img.chains && ValidDisk(disk', img.size)
    requires |disk'| == |img.disk| && forall c | 0 <= c < |disk'| && c !in img.chains[d] :: disk'[c] == img.disk[c]
    requires var g := img.views[d][k];
             && g.start + g.lfns + 1 <= |SlotsOf(img, d)|
             && DirSlots(disk', img.chains[d]) == MarkDeleted(SlotsOf(img, d), g.start, g.lfns + 1)
    ensures DetachReady(img, d, k, disk')
  {
    hide Linked, Storage, ValidDirectory, DirSlots, FirstCluster, IsDirectory;
    assert SlotsOk(img, d);
    DeleteValid(SlotsOf(img, d), img.views[d], k);
  }

  /** Name and chain gone: the file system without the name, and exactly the chain's clusters
      back among the free ones. */
  lemma Removed(img: Image, d: nat, k: Key, fat': Table, disk': Disk)
    requires ValidImage(img) && DetachReady(img, d, k, disk') && Listed(img, d, k)
    requires var f := FirstCluster(EntryOf(img, d, k));
             && |fat'| == |img.fat| && (f !in img.chains ==> fat' == img.fat)
             && (f in img.chains ==> Cleared(img.fat, fat', img.chains[f]))
    ensures var img' := Detached(img, d, k).(fat := fat', disk := disk');
            && ValidImage(img') && img'.size == img.size && img'.root == img.root
            && d in Tree(img) && k in Tree(img)[d] && Tree(img') == DetachedTree(Tree(img), d, k)
            && FreeClusters(fat') ==
              FreeClusters(img.fat) + SetOf(OldChain(img.chains, FirstCluster(EntryOf(img, d, k))))
  {
    var f := FirstCluster(EntryOf(img, d, k));
    var mid := Detached(img, d, k).(disk := disk');
    ValidParts(img);
    DetachedParts(img, d, k);
    FreedSet(img, f, fat');
    hide Linked, Storage, AllSlots, ValidImage, DetachReady, Detached, Tree, DetachedTree, FirstCluster, IsChain,
         FreeClusters, ValidDisk;
    DetachStep(img, d, k, disk');
    ValidMid(mid);
    if f in img.chains {
      OrphanStep(mid, fat', disk', img.chains[f]);
      assert mid.(fat := fat', disk := disk') == Detached(img, d, k).(fat := fat', disk := disk');
    } else {
      assert Detached(img, d, k).(fat := fat', disk := disk') == mid;
    }
  }

  lemma ValidMid(img: Image)
    requires ValidImage(img)
    ensures ValidDisk(img.disk, img.size)
  {
    hide Linked, AllSlots;
  }

  lemma DetachedParts(img: Image, d: nat, k: Key)
    requires Listed(img, d, k)
    ensures var img' := Detached(img, d, k);
            img'.fat == img.fat && img'.disk == img.disk && img'.size == img.size
            && img'.root == img.root
  {
    hide FirstCluster;
  }

  lemma FreedSet(img: Image, f: nat, fat': Table)
    requires Storage(img) && |fat'| == |img.fat| && (f !in img.chains ==> fat' == img.fat)
    requires f in img.chains ==> Cleared(img.fat, fat', img.chains[f])
    ensures FreeClusters(fat') == FreeClusters(img.fat) + SetOf(OldChain(img.chains, f))
    ensures f in img.chains ==> AgreeOff(img.fat, fat', img.chains[f])
  {
    hide IsChain;
    if f in img.chains {
      assert ChainAt(img.fat, img.chains, f);
      forall c: nat ensures c in FreeClusters(fat') <==> c in FreeClusters(img.fat) + SetOf(img.chains[f]) {
        if c in img.chains[f] { ChainInUse(img.fat, img.chains[f], c); }
      }
    }
  }

  /** `fat32_remove`: exactly one name leaves, and exactly its chain's clusters become free. */
  method Remove(vol: Volume, path: Str) returns (r: Result)
    requires vol.Valid() && ParentFits(path)
    modifies vol, vol.store.disk, vol.store.table.entries
    ensures vol.Valid()
    ensures r == old(RemoveResult(vol.Now(), path))
    ensures r != Ok ==> vol.Now() == old(vol.Now())
    ensures r == Ok ==> var img, l := old(vol.Now()), old(Locate(vol.Now(), path));
                        && l.In? && l.dir in Tree(img) && Fold(l.name) in Tree(img)[l.dir]
                        && Tree(vol.Now()) == DetachedTree(Tree(img), l.dir, Fold(l.name))
                        && Listed(img, l.dir, Fold(l.name))
                        && FreeClusters(vol.Now().fat) == FreeClusters(img.fat) +
                             SetOf(OldChain(img.chains, FirstCluster(EntryOf(img, l.dir, Fold(l.name)))))
  {
    hide *;
    ghost var img := vol.Now();
    vol.Parts();
    LocatedPlace(img, path);
    VolumeIs(vol, img);
    RemovePath(img, path);
    var dir, name, parent;
    r, dir, name, parent := LookupParentAndName(vol, path);
    if r != Ok {
      return;
    }
    ghost var k := Fold(name);
    RemoveCases(img, dir.first, k);
    var ref;
    r, ref := vol.FindIn(dir.first, name);
    if r != Ok {
      return;
    }
    vol.ListedMeans(dir.first, k);
    RefEntry(vol.views[dir.first][k]);
    if IsDirectory(ref.entry) {
      vol.DirFacts(FirstCluster(ref.entry));
      var empty := vol.store.DirectoryIsEmpty(FirstCluster(ref.entry), vol.chains[FirstCluster(ref.entry)],
        vol.views[FirstCluster(ref.entry)]);
      if !empty {
        return DirectoryNotEmpty;
      }
    }
    EraseName(vol, dir.first, k, ref);
  }

  lemma RemovePath(img: Image, path: Str)
    requires ValidImage(img)
    ensures match Locate(img, path)
            case Fails(e) => RemoveResult(img, path) == e && e != Ok
            case In(d, name) => d in Tree(img) && RemoveResult(img, path) == RemoveAtResult(Tree(img), d, Fold(name))
  {
    LocatedPlace(img, path);
    hide ValidImage, Locate, RemoveAtResult, Fold, Tree;
  }

  /** The last part of fat32_remove: `mark_entry_deleted`, then the chain is freed. */
  method EraseName(vol: Volume, dir: U32, ghost k: Key, ref: EntryRef)
    requires vol.Valid() && Detachable(vol.Now(), dir, k)
    requires Listed(vol.Now(), dir, k) && ref == RefOf(vol.views[dir][k])
    modifies vol, vol.store.disk, vol.store.table.entries
    ensures vol.Valid()
    ensures dir as nat in old(Tree(vol.Now())) && k in old(Tree(vol.Now()))[dir]
    ensures Tree(vol.Now()) == DetachedTree(old(Tree(vol.Now())), dir, k)
    ensures FreeClusters(vol.Now().fat) ==
            old(FreeClusters(vol.Now().fat) + SetOf(OldChain(vol.chains, FirstCluster(EntryOf(vol.Now(), dir, k)))))
  {
    hide *;
    ghost var img := vol.Now();
    ghost var d: nat := dir;
    vol.Parts();
    VolumeIs(vol, img);
    NotADot(img, d, k);
    EntryPlace(img, d, k);
    vol.DirFacts(d);
    RefEntry(img.views[d][k]);
    var r := vol.store.MarkRangeDeleted(dir, ref.index - ref.lfns, ref.lfns + 1, img.chains[d]);
    DiskIsValid(vol.store, img.chains[d]);
    ghost var disk' := vol.store.disk[..];
    NameGone(img, d, k, disk');
    var first := FirstCluster(ref.entry);
    EntryChain(img, d, k);
    if first >= 2 {
      vol.store.table.FreeClusterChain(first);
    }
    Removed(img, d, k, vol.store.table.View(), disk');
    vol.Adopt(Detached(img, d, k).(fat := vol.store.table.View(), disk := disk'));
  }

  lemma NotADot(img: Image, d: nat, k: Key)
    requires Detachable(img, d, k)
    ensures !IsDot(k)
  {
  }

  /** Freeing from a name's first cluster clears exactly its chain. */
  lemma EntryChain(img: Image, d: nat, k: Key)
    requires ValidImage(img) && Listed(img, d, k) && !IsDot(k)
    ensures var f := FirstCluster(EntryOf(img, d, k));
            && (f >= 2 <==> f in img.chains)
            && (f in img.chains ==> Cleared(img.fat, FreeWalk(img.fat, f), img.chains[f]))
  {
    EntryKind(img, d, k);
    hide Linked, AllSlots, IsDirectory, FirstCluster, Size, IsDot, FreeWalk;
    var f := FirstCluster(EntryOf(img, d, k));
    if f in img.chains {
      assert ChainAt(img.fat, img.chains, f);
      assert LinkAt(img.fat, img.chains[f], 0);
      FreeWalkClearsChain(img.fat, img.chains[f]);
    }
  }
}
