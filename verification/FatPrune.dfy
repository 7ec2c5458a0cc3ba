/** A directory moved into itself: the moved subtree drops out of the volume, which stays valid. */
module FatPrune {
  import opened FatSlots
  import opened FatTables
  import opened FatBlocks
  import opened FatDirectory
  import opened FatImage
  import opened FatSteps
  import opened FatLinks
  import opened FatMoves
  import opened FatRelocate

  /** The chain `h` hangs at or below the path `a`. */
  ghost predicate Dropped(img: Image, a: seq<Key>, h: nat) {
    h in img.owner && img.owner[h].dir in img.paths && a <= img.paths[img.owner[h].dir] + [img.owner[h].key]
  }

  /** The registry without the name (`d`, `k`) and all that hangs below it. */
  ghost function Pruned(img: Image, d: nat, k: Key): Image
    requires d in img.paths
  {
    var a := img.paths[d] + [k];
    img.(chains := map h | h in img.chains && !Dropped(img, a, h) :: img.chains[h],
         views := map x | x in img.views && !Dropped(img, a, x) :: if x == d then img.views[x] - {k} else img.views[x],
         owner := map h | h in img.owner && !Dropped(img, a, h) :: img.owner[h],
         paths := map x | x in img.paths && !Dropped(img, a, x) :: img.paths[x])
  }

  ghost predicate Prunable(img: Image, d: nat, k: Key) {
    Linked(img) && Listed(img, d, k) && !IsDot(k) && d in img.paths && d in img.views
  }

  lemma PrunableParts(img: Image, d: nat, k: Key)
    requires Prunable(img, d, k)
    ensures Linked(img) && Registered(img) && Listed(img, d, k) && !IsDot(k) && d in img.paths && d in img.views
  {
    hide AllPlaced, AllOwners, AllEntries, IsDot;
  }

  lemma NotPrefix(p: seq<Key>, k: Key)
    ensures !(p + [k] <= p)
  {
  }

  /** A directory is dropped exactly when its path lies at or below `a`. */
  lemma DroppedDirectory(img: Image, a: seq<Key>, x: nat)
    requires Linked(img) && x in img.views && a != []
    ensures x in img.paths && (Dropped(img, a, x) <==> a <= img.paths[x])
  {
    ParentPlaced(img, x);
    hide AllPlaced, AllOwners, AllEntries, DotsOk;
  }

  /** What hangs in a dropped directory is dropped. */
  lemma DroppedBelow(img: Image, a: seq<Key>, h: nat)
    requires Linked(img) && h in img.owner && a != []
    ensures img.owner[h].dir in img.views && img.owner[h].dir in img.paths
    ensures Dropped(img, a, img.owner[h].dir) ==> Dropped(img, a, h)
  {
    OwnerPlace(img, h);
    DroppedDirectory(img, a, img.owner[h].dir);
    hide Linked;
  }

  lemma OwnerPlace(img: Image, h: nat)
    requires Linked(img) && h in img.owner
    ensures OwnerOk(img, h) && img.owner[h].dir in img.views && img.owner[h].dir in img.paths
  {
    hide AllPlaced, AllEntries, FirstCluster, IsDot;
  }

  /** Other names keep what they refer to. */
  lemma KeptBelow(img: Image, d: nat, k: Key, x: nat, y: Key)
    requires Prunable(img, d, k) && Listed(img, x, y) && !IsDot(y)
    requires var a := img.paths[d] + [k]; !Dropped(img, a, x) && !(x == d && y == k)
    ensures var f := FirstCluster(EntryOf(img, x, y)); !Dropped(img, img.paths[d] + [k], f)
  {
    hide *;
    PrunableParts(img, d, k);
    var a, f := img.paths[d] + [k], FirstCluster(EntryOf(img, x, y));
    ListedView(img, x, y);
    DroppedDirectory(img, a, x);
    EntryKind(img, x, y);
    NoOwnerOfZero(img);
    if f != 0 {
      if img.paths[x] == img.paths[d] {
        PathInjective(img, x, d);
      }
      Extends(img.paths[d], k, img.paths[x], y);
      DroppedIs(img, a, f);
    } else {
      DroppedIs(img, a, f);
    }
  }

  lemma ListedView(img: Image, x: nat, y: Key)
    requires Listed(img, x, y)
    ensures x in img.views && y in img.views[x]
  {
  }

  lemma NoOwnerOfZero(img: Image)
    requires Linked(img)
    ensures 0 !in img.owner
  {
    hide AllPlaced, AllOwners, AllEntries;
  }

  lemma Extends(p: seq<Key>, k: Key, q: seq<Key>, y: Key)
    ensures p + [k] <= q + [y] ==> p + [k] <= q || (p == q && k == y)
  {
    if p + [k] <= q + [y] && |p| == |q| {
      assert (p + [k])[|p|] == (q + [y])[|q|];
      assert forall i | 0 <= i < |p| :: p[i] == (p + [k])[i] && q[i] == (q + [y])[i];
    }
  }

  lemma DroppedIs(img: Image, a: seq<Key>, h: nat)
    ensures Dropped(img, a, h) <==>
            h in img.owner && img.owner[h].dir in img.paths && a <= img.paths[img.owner[h].dir] + [img.owner[h].key]
  {
  }

  // ---------------------------------------------------------------- registry

  lemma PrunedIs(img: Image, d: nat, k: Key)
    requires d in img.paths
    ensures var img', a := Pruned(img, d, k), img.paths[d] + [k];
            && img'.size == img.size && img'.root == img.root && img'.fat == img.fat && img'.disk == img.disk
            && (forall h :: h in img'.chains <==> h in img.chains && !Dropped(img, a, h))
            && (forall h | h in img'.chains :: img'.chains[h] == img.chains[h])
            && (forall x :: x in img'.views <==> x in img.views && !Dropped(img, a, x))
            && (forall x | x in img'.views :: img'.views[x] == if x == d then img.views[x] - {k} else img.views[x])
            && (forall h :: h in img'.owner <==> h in img.owner && !Dropped(img, a, h))
            && (forall h | h in img'.owner :: img'.owner[h] == img.owner[h])
            && (forall x :: x in img'.paths <==> x in img.paths && !Dropped(img, a, x))
            && forall x | x in img'.paths :: img'.paths[x] == img.paths[x]
  {
    hide Dropped;
  }

  lemma PruneRegistered(img: Image, d: nat, k: Key)
    requires Prunable(img, d, k)
    ensures Registered(Pruned(img, d, k))
  {
    hide *;
    PrunableParts(img, d, k);
    PrunedIs(img, d, k);
    RegisteredParts(img);
    DroppedIs(img, img.paths[d] + [k], img.root);
    RegisteredFrom(Pruned(img, d, k));
  }

  lemma RegisteredParts(img: Image)
    requires Registered(img)
    ensures img.root in img.views && 0 !in img.chains && img.root !in img.owner
    ensures forall x | x in img.views :: x in img.chains && x in img.paths
    ensures forall h :: h in img.chains <==> h in img.owner || h == img.root
    ensures forall x | x in img.paths :: x in img.views
  {
    assert forall h :: h in img.chains.Keys <==> h in img.owner.Keys + {img.root};
    assert forall x :: x in img.paths.Keys <==> x in img.views.Keys;
  }

  lemma RegisteredFrom(img: Image)
    requires img.root in img.views && 0 !in img.chains && img.root !in img.owner
    requires forall x | x in img.views :: x in img.chains && x in img.paths
    requires forall h :: h in img.chains <==> h in img.owner || h == img.root
    requires forall x | x in img.paths :: x in img.views
    ensures Registered(img)
  {
  }

  /** A name of the pruned volume is one of the old volume's, with the same entry. */
  lemma PrunedListed(img: Image, d: nat, k: Key, x: nat, y: Key)
    requires d in img.paths
    ensures var img' := Pruned(img, d, k);
            && (Listed(img', x, y) <==>
                Listed(img, x, y) && !Dropped(img, img.paths[d] + [k], x)
                && !(x == d && y == k))
            && (Listed(img', x, y) ==> EntryOf(img', x, y) == EntryOf(img, x, y))
  {
    PrunedIs(img, d, k);
    hide Dropped, Pruned;
  }

  lemma PrunePlaced(img: Image, d: nat, k: Key, x: nat)
    requires Prunable(img, d, k) && x in Pruned(img, d, k).views
    ensures Placed(Pruned(img, d, k), x)
  {
    hide *;
    PrunableParts(img, d, k);
    PrunedIs(img, d, k);
    ParentPlaced(img, x);
    NonEmpty(img.paths[d], k);
    DroppedDirectory(img, img.paths[d] + [k], x);
    if x != img.root {
      InOwner(img, x);
      DroppedBelow(img, img.paths[d] + [k], x);
    }
    PlacedAgain(img, Pruned(img, d, k), d, k, x);
  }

  lemma NonEmpty(p: seq<Key>, k: Key)
    ensures p + [k] != []
  {
  }

  lemma InOwner(img: Image, x: nat)
    requires x in img.views && PlaceOk(img, x) && x != img.root
    ensures x in img.owner
  {
  }

  lemma PlacedAgain(img: Image, img': Image, d: nat, k: Key, x: nat)
    requires x in img.views && x in img'.views && PlaceOk(img, x) && DotsOk(img, x) && !IsDot(k)
    requires img'.root == img.root && img'.views[x] == (if x == d then img.views[x] - {k} else img.views[x])
    requires x in img'.paths && x in img.paths && img'.paths[x] == img.paths[x]
    requires x != img.root ==> && x in img.owner && x in img'.owner && img'.owner[x] == img.owner[x]
                               && img.owner[x].dir in img.paths && img.owner[x].dir in img'.paths
                               && img'.paths[img.owner[x].dir] == img.paths[img.owner[x].dir]
    ensures Placed(img', x)
  {
    DotKeys();
    hide IsDot, FirstCluster;
  }

  lemma PruneOwner(img: Image, d: nat, k: Key, h: nat)
    requires Prunable(img, d, k) && h in Pruned(img, d, k).owner
    ensures OwnerOk(Pruned(img, d, k), h)
  {
    hide *;
    PrunableParts(img, d, k);
    PrunedIs(img, d, k);
    NonEmpty(img.paths[d], k);
    OwnerPlace(img, h);
    DroppedBelow(img, img.paths[d] + [k], h);
    DroppedIs(img, img.paths[d] + [k], h);
    var o := img.owner[h];
    OwnerParts(img, h);
    PrunedListed(img, d, k, o.dir, o.key);
    OwnerAgain(img, Pruned(img, d, k), h);
  }

  lemma OwnerParts(img: Image, h: nat)
    requires h in img.owner && OwnerOk(img, h)
    ensures h != img.root && Listed(img, img.owner[h].dir, img.owner[h].key) && !IsDot(img.owner[h].key)
    ensures FirstCluster(EntryOf(img, img.owner[h].dir, img.owner[h].key)) == h
  {
    hide IsDot, FirstCluster;
  }

  lemma OwnerAgain(img: Image, img': Image, h: nat)
    requires h in img.owner && h in img'.owner && OwnerOk(img, h) && img'.owner[h] == img.owner[h]
             && img'.root == img.root
    requires var o := img.owner[h];
             Listed(img, o.dir, o.key) && Listed(img', o.dir, o.key)
             && EntryOf(img', o.dir, o.key) == EntryOf(img, o.dir, o.key)
    ensures OwnerOk(img', h)
  {
    hide IsDot, FirstCluster, Listed, EntryOf;
  }

  lemma PruneEntry(img: Image, d: nat, k: Key, x: nat, y: Key)
    requires Prunable(img, d, k) && Listed(Pruned(img, d, k), x, y)
    ensures EntryOk(Pruned(img, d, k), x, y)
  {
    hide *;
    PrunableParts(img, d, k);
    PrunedIs(img, d, k);
    PrunedListed(img, d, k, x, y);
    EntryHolds(img, x, y);
    if !IsDot(y) {
      KeptBelow(img, d, k, x, y);
      PrunedRecord(img, Pruned(img, d, k), d, k, FirstCluster(EntryOf(img, x, y)));
    }
    EntryFrame(img, Pruned(img, d, k), x, y);
  }

  lemma EntryHolds(img: Image, x: nat, y: Key)
    requires Linked(img) && Listed(img, x, y)
    ensures EntryOk(img, x, y)
  {
    hide AllPlaced, AllOwners, EntryOk;
  }

  lemma PrunedRecord(img: Image, img': Image, d: nat, k: Key, f: nat)
    requires d in img.paths && img' == Pruned(img, d, k) && !Dropped(img, img.paths[d] + [k], f)
    ensures SameRecord(img, img', f)
  {
    PrunedIs(img, d, k);
    hide Dropped, Pruned;
  }

  lemma PruneLinked(img: Image, d: nat, k: Key)
    requires Prunable(img, d, k)
    ensures Linked(Pruned(img, d, k))
  {
    hide *;
    PrunableParts(img, d, k);
    PruneRegistered(img, d, k);
    forall x | x in Pruned(img, d, k).views ensures Placed(Pruned(img, d, k), x) {
      PrunePlaced(img, d, k, x);
    }
    forall h | h in Pruned(img, d, k).owner ensures OwnerOk(Pruned(img, d, k), h) {
      PruneOwner(img, d, k, h);
    }
    forall x, y | Listed(Pruned(img, d, k), x, y) ensures EntryOk(Pruned(img, d, k), x, y) {
      PruneEntry(img, d, k, x, y);
    }
    LinkedFrom(Pruned(img, d, k));
  }

  // -------------------------------------------------------------------- disk

  /** Only `d` itself and clusters of dropped chains were written. */
  ghost predicate PruneWritten(img: Image, d: nat, k: Key, touched: seq<nat>, disk': Disk)
    requires d in img.paths
  {
    && d in img.chains && d in img.views && DiskOff(img.disk, disk', touched) && ValidDisk(disk', img.size)
    && (forall h | h in img.chains && h != d && !Dropped(img, img.paths[d] + [k], h) :: Apart(img.chains[h], touched))
    && ValidDirectory(DirSlots(disk', img.chains[d]), img.views[d] - {k})
  }

  /** The file system without the subtree at (`d`, `k`). */
  ghost function PrunedTree(tree: FileSystem, paths: map<nat, seq<Key>>, d: nat, k: Key): FileSystem
    requires d in paths && paths.Keys == tree.Keys
  {
    map x | x in tree && !(paths[d] + [k] <= paths[x]) :: if x == d then tree[x] - {k} else tree[x]
  }

  lemma TreeKeys(img: Image)
    requires Linked(img)
    ensures img.paths.Keys == Tree(img).Keys
  {
    hide AllPlaced, AllOwners, AllEntries, Listing;
  }

  lemma PruneStep(img: Image, d: nat, k: Key, touched: seq<nat>, disk': Disk)
    requires ValidImage(img) && Prunable(img, d, k) && PruneWritten(img, d, k, touched, disk')
    ensures img.paths.Keys == Tree(img).Keys
    ensures var img' := Pruned(img, d, k).(disk := disk');
            && ValidImage(img') && Tree(img') == PrunedTree(Tree(img), img.paths, d, k)
            && img'.size == img.size && img'.root == img.root && img'.fat == img.fat
  {
    hide *;
    ValidParts(img);
    PrunableParts(img, d, k);
    PrunedIs(img, d, k);
    PruneLinked(img, d, k);
    PruneRegistered(img, d, k);
    TreeKeys(img);
    var pruned := Pruned(img, d, k);
    var img' := pruned.(disk := disk');
    SameFields(pruned, disk');
    LinkedAnywhere(pruned, pruned.fat, disk');
    forall h | h in img'.chains && h != d ensures Same(img, img', h) {
      PruneSame(img, img', d, k, touched, disk', h);
    }
    PruneStorage(img, img', d, k, touched, disk');
    RegisteredParts(img);
    RegisteredParts(pruned);
    forall x | x in img'.views ensures SlotsOk(img', x) {
      PruneSlots(img, img', d, k, touched, disk', x);
    }
    AllSlotsFrom(img');
    ValidFrom(img');
    forall x | x in img'.views ensures x in img.views && Listing(img', x) == if x == d then Listing(img, x) - {k}
      else Listing(img, x) {
      PruneListing(img, img', d, k, x);
    }
    NonEmpty(img.paths[d], k);
    forall x | x in img.views ensures x in img.paths && (Dropped(img, img.paths[d] + [k], x) <==>
      img.paths[d] + [k] <= img.paths[x]) {
      DroppedDirectory(img, img.paths[d] + [k], x);
    }
    TreePruned(img, img', d, k);
  }

  lemma SameFields(img: Image, disk': Disk)
    ensures img.(disk := disk') == img.(fat := img.fat, disk := disk')
  {
  }

  lemma ValidFrom(img: Image)
    requires Storage(img) && Linked(img) && AllSlots(img)
    ensures ValidImage(img)
  {
    hide Storage, Linked, AllSlots;
  }

  lemma PruneSame(img: Image, img': Image, d: nat, k: Key, touched: seq<nat>, disk': Disk, h: nat)
    requires d in img.paths && PruneWritten(img, d, k, touched, disk') && img'.disk == disk'
    requires h in img.chains && h in img'.chains && img'.chains[h] == img.chains[h] && h != d
             && !Dropped(img, img.paths[d] + [k], h)
    ensures Same(img, img', h)
  {
    hide ValidDirectory, DirSlots, ValidDisk, Dropped, Same;
    SameOff(img, img', h, touched);
  }

  lemma PruneStorage(img: Image, img': Image, d: nat, k: Key, touched: seq<nat>, disk': Disk)
    requires Storage(img) && d in img.paths && PruneWritten(img, d, k, touched, disk')
    requires img'.fat == img.fat && img'.size == img.size && img'.disk == disk'
    requires forall h | h in img'.chains :: h in img.chains && img'.chains[h] == img.chains[h]
    ensures Storage(img')
  {
    hide ValidDirectory, DirSlots, Dropped, IsChain, Apart;
    assert forall h | h in img'.chains :: ChainAt(img.fat, img.chains, h);
  }

  lemma PruneSlots(img: Image, img': Image, d: nat, k: Key, touched: seq<nat>, disk': Disk, x: nat)
    requires AllSlots(img) && d in img.paths && PruneWritten(img, d, k, touched, disk') && Linked(img')
    requires img'.disk == disk' && x in img'.views && x in img.views && x in img.chains && x in img'.chains
             && img'.chains[x] == img.chains[x]
    requires img'.views[x] == if x == d then img.views[x] - {k} else img.views[x]
    requires x != d ==> Same(img, img', x)
    ensures SlotsOk(img', x)
  {
    hide ValidDirectory, DirSlots, Dropped, Linked, Same;
    if x != d { SlotsKept(img, img', x); }
  }

  lemma PruneListing(img: Image, img': Image, d: nat, k: Key, x: nat)
    requires ValidImage(img) && Prunable(img, d, k) && img' == Pruned(img, d, k).(disk := img'.disk) && x in img'.views
    requires forall h | h in img'.chains && h != d :: Same(img, img', h)
    requires 0 !in img'.chains
    ensures x in img.views && Listing(img', x) == if x == d then Listing(img, x) - {k} else Listing(img, x)
  {
    hide *;
    ValidParts(img);
    PrunableParts(img, d, k);
    PrunedIs(img, d, k);
    forall y | y in img'.views[x] && !IsDot(y) ensures y in img.views[x]
      && NodeOf(img', img.views[x][y].entry) == NodeOf(img, img.views[x][y].entry) {
      PruneNode(img, img', d, k, x, y);
    }
    ListingsAgree(img, img', d, k, x);
  }

  lemma PruneNode(img: Image, img': Image, d: nat, k: Key, x: nat, y: Key)
    requires ValidImage(img) && Prunable(img, d, k) && img' == Pruned(img, d, k).(disk := img'.disk)
    requires x in img'.views && y in img'.views[x] && !IsDot(y)
    requires forall h | h in img'.chains && h != d :: Same(img, img', h)
    requires 0 !in img'.chains
    ensures x in img.views && y in img.views[x]
            && NodeOf(img', img.views[x][y].entry) == NodeOf(img, img.views[x][y].entry)
  {
    hide *;
    ValidParts(img);
    PrunableParts(img, d, k);
    PrunedIs(img, d, k);
    ListedBoth(Pruned(img, d, k), x, y);
    PrunedListed(img, d, k, x, y);
    ListedView(img, x, y);
    ListedBoth(img, x, y);
    KeptBelow(img, d, k, x, y);
    EntryKind(img, x, y);
    NodeKept(img, img', x, y);
  }

  lemma ListedBoth(img: Image, x: nat, y: Key)
    requires x in img.views && y in img.views[x]
    ensures Listed(img, x, y) && EntryOf(img, x, y) == img.views[x][y].entry
  {
  }

  lemma ListingsAgree(img: Image, img': Image, d: nat, k: Key, x: nat)
    requires x in img.views && x in img'.views && img'.views[x] == (if x == d then img.views[x] - {k} else img.views[x])
    requires forall y | y in img'.views[x] && !IsDot(y) ::
             y in img.views[x] && NodeOf(img', img.views[x][y].entry) == NodeOf(img, img.views[x][y].entry)
    ensures Listing(img', x) == if x == d then Listing(img, x) - {k} else Listing(img, x)
  {
    hide NodeOf, IsDot;
  }

  lemma TreePruned(img: Image, img': Image, d: nat, k: Key)
    requires d in img.paths && img.paths.Keys == Tree(img).Keys
    requires forall x | x in img.views :: x in img.paths && (Dropped(img, img.paths[d] + [k], x) <==>
             img.paths[d] + [k] <= img.paths[x])
    requires forall x :: x in img'.views <==> x in img.views && !Dropped(img, img.paths[d] + [k], x)
    requires forall x | x in img'.views :: Listing(img', x) == if x == d then Listing(img, x) - {k} else Listing(img, x)
    ensures Tree(img') == PrunedTree(Tree(img), img.paths, d, k)
  {
    hide Listing, Dropped;
  }

  // ------------------------------------------------- what a move leaves behind

  /** All a move into itself writes, outside `d`, belongs to the subtree that drops out. */
  lemma MovePrunes(img: Image, d: nat, k: Key, d2: nat, k2: Key, g: Group, up: Slot, disk': Disk)
    requires ValidImage(img) && Prunable(img, d, k) && d2 in img.views && d2 in img.paths
    requires d in img.chains && d2 in img.chains
    requires IsDirectory(EntryOf(img, d, k)) && IsDirectory(g.entry)
             && FirstCluster(g.entry) == FirstCluster(EntryOf(img, d, k))
    requires img.paths[d] + [k] <= img.paths[d2]
    requires DiskOff(img.disk, disk', MoveTouches(img, d, d2, g)) && ValidDisk(disk', img.size)
    requires ValidDirectory(DirSlots(disk', img.chains[d]), RelocatedView(img, d, k, d2, k2, g, up, d))
    ensures PruneWritten(img, d, k, MoveTouches(img, d, d2, g), disk')
  {
    hide *;
    ValidParts(img);
    PrunableParts(img, d, k);
    NonEmpty(img.paths[d], k);
    NotPrefix(img.paths[d], k);
    var a, f := img.paths[d] + [k], FirstCluster(g.entry);
    DroppedDirectory(img, a, d2);
    DirectoryHead(img, d, k);
    DroppedIs(img, a, f);
    ViewOfSource(img, d, k, d2, k2, g, up);
    DroppedDirectory(img, a, d);
    forall h | h in img.chains && h != d
      && !Dropped(img, a, h) ensures Apart(img.chains[h], MoveTouches(img, d, d2, g)) {
      assert h != d2 && h != f;
      NotChanged(d, d2, g, img, h);
      UntouchedApart(img, d, d2, g, h);
    }
    WrittenIs(img, d, k, MoveTouches(img, d, d2, g), disk');
  }

  lemma DirectoryHead(img: Image, d: nat, k: Key)
    requires Prunable(img, d, k) && IsDirectory(EntryOf(img, d, k))
    ensures var f := FirstCluster(EntryOf(img, d, k));
            f in img.owner && img.owner[f].dir == d && img.owner[f].key == k && f != d
  {
    hide *;
    PrunableParts(img, d, k);
    RegisteredParts(img);
    EntryKind(img, d, k);
    var f := FirstCluster(EntryOf(img, d, k));
    ParentPlaced(img, f);
    HeadPath(img, f, d, k);
  }

  lemma HeadPath(img: Image, f: nat, d: nat, k: Key)
    requires f in img.views && PlaceOk(img, f) && f != img.root && f in img.owner && img.owner[f] == Owner(d, k)
             && d in img.paths
    ensures img.owner[f].dir == d && img.owner[f].key == k && f != d
  {
    NotPrefix(img.paths[d], k);
    assert img.paths[f] == img.paths[d] + [k];
    assert |img.paths[f]| != |img.paths[d]|;
  }

  lemma NotChanged(d: nat, d2: nat, g: Group, img: Image, h: nat)
    requires h != d && h != d2 && h != FirstCluster(g.entry)
    ensures !Changed(img, d, d2, g, h)
  {
    hide FirstCluster;
  }

  lemma ViewOfSource(img: Image, d: nat, k: Key, d2: nat, k2: Key, g: Group, up: Slot)
    requires d in img.views && d2 in img.views && d != d2 && d != FirstCluster(g.entry)
    ensures RelocatedView(img, d, k, d2, k2, g, up, d) == img.views[d] - {k}
  {
    hide FirstCluster, IsDirectory;
  }

  lemma WrittenIs(img: Image, d: nat, k: Key, touched: seq<nat>, disk': Disk)
    requires d in img.paths && d in img.chains && d in img.views && DiskOff(img.disk, disk', touched)
             && ValidDisk(disk', img.size)
    requires forall h | h in img.chains && h != d && !Dropped(img, img.paths[d] + [k], h) ::
             Apart(img.chains[h], touched)
    requires ValidDirectory(DirSlots(disk', img.chains[d]), img.views[d] - {k})
    ensures PruneWritten(img, d, k, touched, disk')
  {
    hide ValidDirectory, DirSlots, DiskOff, ValidDisk, Dropped, Apart;
  }
}
