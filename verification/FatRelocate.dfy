/** Moving a name, within one directory or between two, carried out on the disk. */
module FatRelocate {
  import opened Bytes
  import opened FatSlots
  import opened FatTables
  import opened FatBlocks
  import opened FatDirectory
  import opened FatImage
  import opened FatSteps
  import opened FatLinks
  import opened FatMoves

  /** The names of directory `x` after the move. */
  ghost function MovedView(img: Image, d: nat, k: Key, d2: nat, k2: Key, g: Group, x: nat): View
    requires d in img.views && d2 in img.views && x in img.views
  {
    var without := if x == d then img.views[x] - {k} else img.views[x];
    if x == d2 then without[k2 := g] else without
  }

  ghost function RelocatedView(img: Image, d: nat, k: Key, d2: nat, k2: Key, g: Group, up: Slot, x: nat): View
    requires d in img.views && d2 in img.views && x in img.views
  {
    var view := MovedView(img, d, k, d2, k2, g, x);
    if IsDirectory(g.entry) && x == FirstCluster(g.entry) && [DOT, DOT] in view then WithUp(view, up) else view
  }

  ghost predicate Relocatable(img: Image, d: nat, k: Key, d2: nat, k2: Key, g: Group, up: Slot) {
    && Listed(img, d, k) && !IsDot(k) && d2 in img.views && !IsDot(k2) && k2 !in img.views[d2]
    && (var e := EntryOf(img, d, k);
        && FirstCluster(g.entry) == FirstCluster(e) && Size(g.entry) == Size(e)
        && (IsDirectory(g.entry) <==> IsDirectory(e)))
    && (if IsDirectory(g.entry) then Movable(img, d, k, d2, k2, g, up) else FirstCluster(g.entry) !in img.views)
  }

  ghost function Relocated(img: Image, d: nat, k: Key, d2: nat, k2: Key, g: Group, up: Slot): Image
    requires Relocatable(img, d, k, d2, k2, g, up)
  {
    if IsDirectory(g.entry) then MovedDir(img, d, k, d2, k2, g, up)
    else Attached(Detached(img, d, k), d2, k2, g, OldChain(img.chains, FirstCluster(g.entry)), map[])
  }

  /** The clusters a move may write: both directories, and a moved directory's own. */
  ghost function MoveTouches(img: Image, d: nat, d2: nat, g: Group): seq<nat>
    requires d in img.chains && d2 in img.chains
  {
    img.chains[d] + img.chains[d2] + if IsDirectory(g.entry) then OldChain(img.chains, FirstCluster(g.entry)) else []
  }

  ghost predicate Changed(img: Image, d: nat, d2: nat, g: Group, x: nat) {
    x == d || x == d2 || (IsDirectory(g.entry) && x == FirstCluster(g.entry))
  }

  ghost predicate RelocateReady(img: Image, d: nat, k: Key, d2: nat, k2: Key, g: Group, up: Slot, disk': Disk) {
    && Relocatable(img, d, k, d2, k2, g, up) && d in img.chains && d2 in img.chains
    && DiskOff(img.disk, disk', MoveTouches(img, d, d2, g)) && ValidDisk(disk', img.size)
    && forall x | x in img.views && x in img.chains && Changed(img, d, d2, g, x) ::
         ValidDirectory(DirSlots(disk', img.chains[x]), RelocatedView(img, d, k, d2, k2, g, up, x))
  }

  ghost function MovedTree(tree: FileSystem, d: nat, k: Key, d2: nat, k2: Key): FileSystem
    requires d in tree && d2 in tree && k in tree[d]
  {
    var without := tree[d := tree[d] - {k}];
    without[d2 := without[d2][k2 := tree[d][k]]]
  }

  lemma RelocateStep(img: Image, d: nat, k: Key, d2: nat, k2: Key, g: Group, up: Slot, disk': Disk)
    requires ValidImage(img) && RelocateReady(img, d, k, d2, k2, g, up, disk')
    ensures var img' := Relocated(img, d, k, d2, k2, g, up).(disk := disk');
            && ValidImage(img') && d in Tree(img) && d2 in Tree(img) && k in Tree(img)[d]
            && Tree(img') == MovedTree(Tree(img), d, k, d2, k2)
            && img'.chains == img.chains && img'.fat == img.fat
  {
    hide Linked, Storage, AllSlots, RelocateReady, Relocated, Tree, SlotsOk, Same, Listing, FirstCluster, Relocatable;
    RelocateFacts(img, d, k, d2, k2, g, up, disk');
    var linked := Relocated(img, d, k, d2, k2, g, up);
    var img' := linked.(disk := disk');
    RelocateLinked(img, d, k, d2, k2, g, up);
    LinkedAnywhere(linked, linked.fat, disk');
    assert img' == linked.(fat := linked.fat, disk := disk');
    RelocatedViews(img, d, k, d2, k2, g, up);
    RelocateStorage(img, d, k, d2, k2, g, up, disk');
    forall x | x in img'.views ensures x in img.views && SlotsOk(img', x)
                                 && Listing(img', x) == MovedListing(img, d, k, d2, k2, x) {
      RelocateDir(img, d, k, d2, k2, g, up, disk', x);
    }
    AllSlotsFrom(img');
    TreeMoved(img, img', d, k, d2, k2);
  }

  lemma RelocateFacts(img: Image, d: nat, k: Key, d2: nat, k2: Key, g: Group, up: Slot, disk': Disk)
    requires ValidImage(img) && RelocateReady(img, d, k, d2, k2, g, up, disk')
    ensures Relocatable(img, d, k, d2, k2, g, up)
    ensures Listed(img, d, k) && !IsDot(k) && d2 in img.views && d in img.chains && d2 in img.chains
  {
    hide Linked, Storage, AllSlots, FirstCluster, IsDirectory, ValidDirectory;
  }

  // ------------------------------------------------------------ registry

  lemma RelocateLinked(img: Image, d: nat, k: Key, d2: nat, k2: Key, g: Group, up: Slot)
    requires ValidImage(img) && Relocatable(img, d, k, d2, k2, g, up)
    ensures Linked(Relocated(img, d, k, d2, k2, g, up))
  {
    hide Linked, Storage, AllSlots, FirstCluster, Size, IsDirectory, IsDot;
    if IsDirectory(g.entry) {
      MoveLinked(img, d, k, d2, k2, g, up);
    } else {
      EntryKind(img, d, k);
      FileRecord(img, d, k);
      DetachLinked(img, d, k);
      DetachedViews(img, d, k, d2);
      StillThere(img, d, k, d2);
      var mid := Detached(img, d, k);
      var f := FirstCluster(g.entry);
      assert mid.chains == img.chains - {f};
      hide Detached;
      assert Attachable(mid, d2, k2, g, OldChain(img.chains, f), map[]);
      AttachLinked(mid, d2, k2, g, OldChain(img.chains, f), map[]);
    }
  }

  lemma StillThere(img: Image, d: nat, k: Key, d2: nat)
    requires Listed(img, d, k) && d2 in img.views && FirstCluster(EntryOf(img, d, k)) !in img.views
    ensures d2 in Detached(img, d, k).views
    ensures Detached(img, d, k).views[d2] == if d2 == d then img.views[d] - {k} else img.views[d2]
  {
    hide FirstCluster;
  }

  lemma FileRecord(img: Image, d: nat, k: Key)
    requires ValidImage(img) && Listed(img, d, k) && !IsDot(k) && !IsDirectory(EntryOf(img, d, k))
    ensures var f := FirstCluster(EntryOf(img, d, k));
            f != 0 ==> f in img.chains && |img.chains[f]| > 0 && img.chains[f][0] == f
                       && 0 < Size(EntryOf(img, d, k)) <= |img.chains[f]| * img.size
  {
    hide AllPlaced, AllOwners, AllSlots, FirstCluster, Size, IsDirectory, IsDot;
    assert EntryOk(img, d, k);
    var f := FirstCluster(EntryOf(img, d, k));
    if f != 0 {
      assert ChainAt(img.fat, img.chains, f);
    }
  }

  lemma RelocatedViews(img: Image, d: nat, k: Key, d2: nat, k2: Key, g: Group, up: Slot)
    requires ValidImage(img) && Relocatable(img, d, k, d2, k2, g, up)
    ensures var img' := Relocated(img, d, k, d2, k2, g, up);
            && img'.views.Keys == img.views.Keys && img'.chains == img.chains
            && img'.fat == img.fat && img'.size == img.size && img'.disk == img.disk
            && forall x | x in img.views :: img'.views[x] == RelocatedView(img, d, k, d2, k2, g, up, x)
  {
    hide Storage, AllSlots, Linked, FirstCluster, Size, IsDirectory, IsDot;
    EntryKind(img, d, k);
    if IsDirectory(g.entry) {
      MovableFacts(img, d, k, d2, k2, g, up);
      MovedDirViews(img, d, k, d2, k2, g, up);
    } else {
      MovedFileViews(img, d, k, d2, k2, g);
    }
  }

  lemma MovedDirViews(img: Image, d: nat, k: Key, d2: nat, k2: Key, g: Group, up: Slot)
    requires Movable(img, d, k, d2, k2, g, up)
    requires var f := FirstCluster(g.entry); f in img.views && f != d && f != d2
    ensures var img' := MovedDir(img, d, k, d2, k2, g, up);
            && img'.views.Keys == img.views.Keys && img'.chains == img.chains
            && img'.fat == img.fat && img'.size == img.size && img'.disk == img.disk
            && forall x | x in img.views :: img'.views[x] == RelocatedView(img, d, k, d2, k2, g, up, x)
  {
    hide FirstCluster, IsDirectory, IsDot, Rebased;
  }

  lemma MovedFileViews(img: Image, d: nat, k: Key, d2: nat, k2: Key, g: Group)
    requires Listed(img, d, k) && d2 in img.views && k2 !in img.views[d2] && !IsDirectory(g.entry)
    requires var f := FirstCluster(g.entry);
             && f == FirstCluster(EntryOf(img, d, k)) && f !in img.views && 0 !in img.chains
               && (f != 0 ==> f in img.chains)
    ensures var img' := Attached(Detached(img, d, k), d2, k2, g, OldChain(img.chains, FirstCluster(g.entry)), map[]);
            && img'.views.Keys == img.views.Keys && img'.chains == img.chains
            && img'.fat == img.fat && img'.size == img.size && img'.disk == img.disk
            && forall x | x in img.views :: img'.views[x] == MovedView(img, d, k, d2, k2, g, x)
  {
    hide FirstCluster, IsDirectory;
  }

  // ------------------------------------------------------------- storage

  lemma RelocateStorage(img: Image, d: nat, k: Key, d2: nat, k2: Key, g: Group, up: Slot, disk': Disk)
    requires ValidImage(img) && RelocateReady(img, d, k, d2, k2, g, up, disk')
    ensures var img' := Relocated(img, d, k, d2, k2, g, up).(disk := disk');
            Storage(img') && forall h | h in img.chains && !Changed(img, d, d2, g, h) :: Same(img, img', h)
  {
    RelocatedViews(img, d, k, d2, k2, g, up);
    hide Linked, AllSlots, FirstCluster, IsDirectory, Relocatable, Relocated, ValidDirectory, RelocatedView;
    var img' := Relocated(img, d, k, d2, k2, g, up).(disk := disk');
    forall h | h in img.chains && !Changed(img, d, d2, g, h) ensures Same(img, img', h) {
      UntouchedApart(img, d, d2, g, h);
      SameOff(img, img', h, MoveTouches(img, d, d2, g));
    }
  }

  lemma UntouchedApart(img: Image, d: nat, d2: nat, g: Group, h: nat)
    requires Storage(img) && d in img.chains && d2 in img.chains && h in img.chains && !Changed(img, d, d2, g, h)
    ensures Apart(img.chains[h], MoveTouches(img, d, d2, g))
  {
    hide FirstCluster, IsDirectory, ChainAt;
    var f := FirstCluster(g.entry);
    assert Apart(img.chains[h], img.chains[d]) && Apart(img.chains[h], img.chains[d2]);
    if IsDirectory(g.entry) && f in img.chains {
      assert Apart(img.chains[h], img.chains[f]);
    }
  }

  // ---------------------------------------------------------------- tree

  ghost function MovedListing(img: Image, d: nat, k: Key, d2: nat, k2: Key, x: nat): map<Key, Node>
    requires x in img.views && Listed(img, d, k)
  {
    var without := if x == d then Listing(img, x) - {k} else Listing(img, x);
    if x == d2 then without[k2 := NodeOf(img, EntryOf(img, d, k))] else without
  }

  lemma RelocateDir(img: Image, d: nat, k: Key, d2: nat, k2: Key, g: Group, up: Slot, disk': Disk, x: nat)
    requires ValidImage(img) && RelocateReady(img, d, k, d2, k2, g, up, disk') && x in img.views
    requires var img' := Relocated(img, d, k, d2, k2, g, up).(disk := disk');
             forall h | h in img.chains && !Changed(img, d, d2, g, h) :: Same(img, img', h)
    ensures var img' := Relocated(img, d, k, d2, k2, g, up).(disk := disk');
            x in img'.views && SlotsOk(img', x) && Listing(img', x) == MovedListing(img, d, k, d2, k2, x)
  {
    hide Linked, Storage, AllSlots, FirstCluster, IsDirectory, Relocated, ValidDirectory, RelocatedView, MovedView,
         NodeOf, Same, Listing, MovedListing, IsDot;
    RelocatedViews(img, d, k, d2, k2, g, up);
    ViewIsChain(img, x);
    var img' := Relocated(img, d, k, d2, k2, g, up).(disk := disk');
    if !Changed(img, d, d2, g, x) {
      UnchangedView(img, d, k, d2, k2, g, up, x);
      SlotsKept(img, img', x);
    }
    RelocateNames(img, img', d, k, d2, k2, g, up, x);
    RelocateListing(img, img', d, k, d2, k2, g, up, x);
  }

  lemma UnchangedView(img: Image, d: nat, k: Key, d2: nat, k2: Key, g: Group, up: Slot, x: nat)
    requires d in img.views && d2 in img.views && x in img.views && !Changed(img, d, d2, g, x)
    ensures RelocatedView(img, d, k, d2, k2, g, up, x) == img.views[x]
  {
    hide FirstCluster, IsDirectory;
  }

  lemma NodeFields(img: Image, e: Slot, e': Slot)
    requires FirstCluster(e') == FirstCluster(e) && Size(e') == Size(e) && (IsDirectory(e') <==> IsDirectory(e))
    ensures NodeOf(img, e') == NodeOf(img, e)
  {
    hide FirstCluster, Size, IsDirectory, BytesOf;
  }

  lemma RelocateNames(img: Image, img': Image, d: nat, k: Key, d2: nat, k2: Key, g: Group, up: Slot, x: nat)
    requires ValidImage(img) && Relocatable(img, d, k, d2, k2, g, up) && x in img.views
    requires img'.chains == img.chains && forall h | h in img.chains && !Changed(img, d, d2, g, h) :: Same(img, img', h)
    ensures forall y | y in img.views[x] && !IsDot(y) ::
              NodeOf(img', img.views[x][y].entry) == NodeOf(img, img.views[x][y].entry)
    ensures NodeOf(img', g.entry) == NodeOf(img, EntryOf(img, d, k))
  {
    hide Storage, Linked, AllSlots, FirstCluster, IsDirectory, Size, NodeOf, IsDot, Same, Movable;
    EntryKind(img, d, k);
    NodeStays(img, img', d, d2, g, d, k);
    NodeFields(img', EntryOf(img, d, k), g.entry);
    forall y | y in img.views[x] && !IsDot(y)
      ensures NodeOf(img', img.views[x][y].entry) == NodeOf(img, img.views[x][y].entry)
    {
      assert Listed(img, x, y);
      NodeStays(img, img', d, d2, g, x, y);
    }
  }

  lemma NodeStays(img: Image, img': Image, d: nat, d2: nat, g: Group, x: nat, y: Key)
    requires ValidImage(img) && Listed(img, x, y) && !IsDot(y) && d in img.views && d2 in img.views
    requires img'.chains == img.chains && forall h | h in img.chains && !Changed(img, d, d2, g, h) :: Same(img, img', h)
    requires IsDirectory(g.entry) ==> FirstCluster(g.entry) in img.views
    ensures NodeOf(img', EntryOf(img, x, y)) == NodeOf(img, EntryOf(img, x, y))
  {
    hide Storage, Linked, AllSlots, FirstCluster, IsDirectory, NodeOf, IsDot, Same;
    EntryKind(img, x, y);
    NodeKept(img, img', x, y);
  }

  lemma RelocateListing(img: Image, img': Image, d: nat, k: Key, d2: nat, k2: Key, g: Group, up: Slot, x: nat)
    requires Listed(img, d, k) && !IsDot(k) && !IsDot(k2) && d2 in img.views && x in img.views && x in img'.views
    requires img'.views[x] == RelocatedView(img, d, k, d2, k2, g, up, x)
    requires forall y | y in img.views[x] && !IsDot(y) ::
              NodeOf(img', img.views[x][y].entry) == NodeOf(img, img.views[x][y].entry)
    requires NodeOf(img', g.entry) == NodeOf(img, EntryOf(img, d, k))
    ensures Listing(img', x) == MovedListing(img, d, k, d2, k2, x)
  {
    DotKeys();
    hide NodeOf, IsDot, FirstCluster, IsDirectory;
  }

  lemma TreeMoved(img: Image, img': Image, d: nat, k: Key, d2: nat, k2: Key)
    requires Listed(img, d, k) && !IsDot(k) && d2 in img.views && img'.views.Keys == img.views.Keys
    requires forall x | x in img'.views :: x in img.views && Listing(img', x) == MovedListing(img, d, k, d2, k2, x)
    ensures d in Tree(img) && d2 in Tree(img) && k in Tree(img)[d]
    ensures Tree(img') == MovedTree(Tree(img), d, k, d2, k2)
  {
    hide NodeOf, IsDot;
  }
}
