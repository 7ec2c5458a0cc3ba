/** Registry edits carried out on the disk: what creating, rewriting, removing and moving a name
    do to a valid volume and to the file system it stands for. */
module FatMoves {
  import opened Bytes
  import opened FatSlots
  import opened FatTables
  import opened FatBlocks
  import opened FatDirectory
  import opened FatImage
  import opened FatSteps
  import opened FatLinks

  // -------------------------------------------------------------- storage

  /** The registry does not look at the clusters. */
  lemma LinkedAnywhere(img: Image, fat': Table, disk': Disk)
    requires Linked(img)
    ensures Linked(img.(fat := fat', disk := disk'))
  {
    var img' := img.(fat := fat', disk := disk');
    hide EntryOk, OwnerOk, Placed, Listed;
    forall d, k | Listed(img', d, k) ensures EntryOk(img', d, k) {
      SameListed(img, img', d, k);
      AnywhereEntry(img, img', d, k);
    }
    forall d | d in img.views ensures Placed(img', d) {
      SamePlaced(img, img', d);
    }
    forall h | h in img.owner ensures OwnerOk(img', h) {
      SameOwner(img, img', h);
    }
    LinkedFrom(img');
  }

  lemma AnywhereEntry(img: Image, img': Image, d: nat, k: Key)
    requires Listed(img, d, k) && EntryOk(img, d, k) && img' == img.(fat := img'.fat, disk := img'.disk)
    ensures EntryOk(img', d, k)
  {
    hide FirstCluster, IsDirectory, Size, IsDot;
  }

  lemma AddChain(fat: Table, chains: Chains, f: nat, cs: seq<nat>)
    requires ValidChains(fat, chains) && f !in chains
    requires IsChain(fat, cs) && cs[0] == f && forall h | h in chains :: Apart(chains[h], cs)
    ensures ValidChains(fat, chains[f := cs])
  {
    hide IsChain;
    var chains' := chains[f := cs];
    forall h | h in chains' ensures ChainAt(fat, chains', h) {
      if h != f { assert ChainAt(fat, chains, h); }
    }
    forall h, l | h in chains' && l in chains' && h != l ensures Apart(chains'[h], chains'[l]) {
      if h != f && l != f {
        assert Apart(chains[h], chains[l]);
      } else {
        var o := if h == f then l else h;
        assert Apart(chains[o], cs);
      }
    }
  }

  lemma DropChain(fat: Table, chains: Chains, f: nat)
    requires ValidChains(fat, chains)
    ensures ValidChains(fat, chains - {f})
    ensures f in chains ==> forall h | h in chains - {f} :: Apart((chains - {f})[h], chains[f])
  {
    hide IsChain;
    forall h | h in chains - {f} ensures ChainAt(fat, chains - {f}, h) {
      assert ChainAt(fat, chains, h);
      if f in chains { assert Apart(chains[h], chains[f]); }
    }
    forall h, l | h in chains - {f} && l in chains - {f} && h != l
      ensures Apart((chains - {f})[h], (chains - {f})[l])
    {
      assert Apart(chains[h], chains[l]);
    }
  }

  /** A chain no change touched. */
  lemma SameOff(img: Image, img': Image, h: nat, touched: seq<nat>)
    requires h in img.chains && h in img'.chains && img'.chains[h] == img.chains[h]
    requires DiskOff(img.disk, img'.disk, touched) && Apart(img.chains[h], touched)
    ensures Same(img, img', h)
  {
  }

  lemma SlotsKept(img: Image, img': Image, x: nat)
    requires AllSlots(img) && x in img.views && x in img'.views && img'.views[x] == img.views[x]
    requires Same(img, img', x)
    ensures SlotsOk(img', x)
  {
    hide ValidDirectory;
    assert SlotsOk(img, x);
    SameReads(img, img', x);
  }

  // ----------------------------------------------------------------- trees

  /** Names whose file chain no change touched still stand for the same node. */
  lemma NodeKept(img: Image, img': Image, x: nat, y: Key)
    requires ValidImage(img) && Listed(img, x, y) && !IsDot(y) && 0 !in img'.chains
    requires var f := FirstCluster(EntryOf(img, x, y));
             f != 0 && f !in img.views && f in img.chains ==> Same(img, img', f)
    ensures NodeOf(img', EntryOf(img, x, y)) == NodeOf(img, EntryOf(img, x, y))
  {
    hide Storage, AllSlots, AllPlaced, AllOwners, FirstCluster, IsDirectory, Size, IsDot, Same, NodeOf;
    assert EntryOk(img, x, y);
    SameNode(img, img', EntryOf(img, x, y));
  }

  // --------------------------------------------------------- a name joins

  ghost function AttachedTree(tree: FileSystem, d: nat, k: Key, node: Node): FileSystem
    requires d in tree
  {
    var tree1 := tree[d := tree[d][k := node]];
    match node
    case DirNode(f) => tree1[f := map[]]
    case FileNode(_) => tree1
  }

  ghost predicate AttachReady(img: Image, d: nat, k: Key, g: Group, cs: seq<nat>, dots: View, disk': Disk) {
    && Attachable(img, d, k, g, cs, dots) && d in img.chains && d in img.paths
    && DiskOff(img.disk, disk', img.chains[d]) && ValidDisk(disk', img.size)
    && ValidDirectory(DirSlots(disk', img.chains[d]), img.views[d][k := g])
    && (FirstCluster(g.entry) != 0 ==> IsChain(img.fat, cs) && Unowned(img, cs))
    && (IsDirectory(g.entry) ==> ValidDirectory(DirSlots(img.disk, cs), dots))
  }

  lemma AttachStep(img: Image, d: nat, k: Key, g: Group, cs: seq<nat>, dots: View, disk': Disk)
    requires ValidImage(img) && AttachReady(img, d, k, g, cs, dots, disk')
    ensures var img' := Attached(img, d, k, g, cs, dots).(disk := disk');
            && ValidImage(img')
            && Tree(img') == AttachedTree(Tree(img), d, k, NodeOf(img', g.entry))
            && forall h | h in img.chains && h != d :: Same(img, img', h)
  {
    var linked := Attached(img, d, k, g, cs, dots);
    var img' := linked.(disk := disk');
    AttachLinked(img, d, k, g, cs, dots);
    LinkedAnywhere(linked, img.fat, disk');
    assert linked.fat == img.fat;
    assert img' == linked.(fat := img.fat, disk := disk');
    AttachStorage(img, d, k, g, cs, dots, disk');
    hide Linked, Storage, AttachReady, Attached, Tree, AttachedTree, SlotsOk, Same;
    forall x | x in img'.views ensures SlotsOk(img', x) {
      AttachSlots(img, d, k, g, cs, dots, disk', x);
    }
    AttachTree(img, d, k, g, cs, dots, disk');
  }

  lemma AttachStorage(img: Image, d: nat, k: Key, g: Group, cs: seq<nat>, dots: View, disk': Disk)
    requires ValidImage(img) && AttachReady(img, d, k, g, cs, dots, disk')
    ensures var img' := Attached(img, d, k, g, cs, dots).(disk := disk');
            Storage(img') && forall h | h in img.chains && h != d :: Same(img, img', h)
  {
    hide Linked, AllSlots, ValidDirectory, FirstCluster, IsDirectory, IsChain;
    var f := FirstCluster(g.entry);
    var img' := Attached(img, d, k, g, cs, dots).(disk := disk');
    if f != 0 {
      AddChain(img.fat, img.chains, f, cs);
    }
    forall h | h in img.chains && h != d ensures Same(img, img', h) {
      assert Apart(img.chains[h], img.chains[d]);
      SameOff(img, img', h, img.chains[d]);
    }
  }

  /** Where the views and chains of the edited registry come from. */
  lemma AttachedViews(img: Image, d: nat, k: Key, g: Group, cs: seq<nat>, dots: View, x: nat)
    requires Registered(img) && d in img.views && FirstCluster(g.entry) !in img.chains
    ensures var img' := Attached(img, d, k, g, cs, dots);
            var f := FirstCluster(g.entry);
            && img'.fat == img.fat && img'.disk == img.disk && img'.size == img.size
            && d in img'.views && img'.views[d] == img.views[d][k := g]
            && (x in img.chains ==> x in img'.chains && img'.chains[x] == img.chains[x])
            && (x in img.views && x != d ==> x in img'.views && img'.views[x] == img.views[x])
            && (x in img'.views && x !in img.views ==>
                  x == f && IsDirectory(g.entry) && img'.views[x] == dots && x in img'.chains && img'.chains[x] == cs)
            && (IsDirectory(g.entry) && f != 0 ==> f in img'.views && f !in img.views)
            && 0 !in img'.chains
  {
    hide FirstCluster, IsDirectory;
  }

  lemma AttachSlots(img: Image, d: nat, k: Key, g: Group, cs: seq<nat>, dots: View, disk': Disk, x: nat)
    requires ValidImage(img) && AttachReady(img, d, k, g, cs, dots, disk')
    requires var img' := Attached(img, d, k, g, cs, dots).(disk := disk');
             x in img'.views && forall h | h in img.chains && h != d :: Same(img, img', h)
    ensures SlotsOk(Attached(img, d, k, g, cs, dots).(disk := disk'), x)
  {
    var img' := Attached(img, d, k, g, cs, dots).(disk := disk');
    AttachedViews(img, d, k, g, cs, dots, x);
    AttachedViews(img, d, k, g, cs, dots, d);
    hide Storage, ValidDirectory, FirstCluster, IsDirectory, IsChain, AllOwners, AllEntries, AllPlaced, Attached,
         Attachable;
    if x == d {
    } else if x in img.views {
      SlotsKept(img, img', x);
    } else {
      assert Apart(img.chains[d], cs);
      ApartSymmetric(img.chains[d], cs);
      DirSlotsFrame(img.disk, disk', cs);
    }
  }

  lemma ApartSymmetric(a: seq<nat>, b: seq<nat>)
    requires Apart(a, b)
    ensures Apart(b, a)
  {
  }

  lemma AttachTree(img: Image, d: nat, k: Key, g: Group, cs: seq<nat>, dots: View, disk': Disk)
    requires ValidImage(img) && AttachReady(img, d, k, g, cs, dots, disk')
    requires var img' := Attached(img, d, k, g, cs, dots).(disk := disk');
             forall h | h in img.chains && h != d :: Same(img, img', h)
    ensures var img' := Attached(img, d, k, g, cs, dots).(disk := disk');
            Tree(img') == AttachedTree(Tree(img), d, k, NodeOf(img', g.entry))
  {
    var img' := Attached(img, d, k, g, cs, dots).(disk := disk');
    var node := NodeOf(img', g.entry);
    NodeKind(img', g.entry);
    hide Storage, Linked, AllSlots, IsDirectory, Same, NodeOf, Attached, ValidDirectory, IsChain, SameNames, Listing,
         Attachable;
    AttachKeys(img, d, k, g, cs, dots);
    forall x | x in img'.views ensures Listing(img', x) == AttachedListing(img, d, k, node, x) {
      AttachListingAt(img, d, k, g, cs, dots, disk', x);
    }
    TreeAttached(img, img', d, k, node);
  }

  ghost function AttachedListing(img: Image, d: nat, k: Key, node: Node, x: nat): map<Key, Node>
    requires d in img.views
  {
    if x == d then Listing(img, d)[k := node] else if x in img.views then Listing(img, x) else map[]
  }

  lemma AttachKeys(img: Image, d: nat, k: Key, g: Group, cs: seq<nat>, dots: View)
    requires ValidImage(img) && Attachable(img, d, k, g, cs, dots)
    ensures var img' := Attached(img, d, k, g, cs, dots);
            var f := FirstCluster(g.entry);
            && img'.views.Keys == img.views.Keys + (if IsDirectory(g.entry) then {f} else {})
            && (IsDirectory(g.entry) ==> f !in img.views)
  {
    hide Storage, AllSlots, AllPlaced, AllOwners, AllEntries, IsDirectory, FirstCluster;
  }

  lemma TreeAttached(img: Image, img': Image, d: nat, k: Key, node: Node)
    requires d in img.views
    requires img'.views.Keys == img.views.Keys + (if node.DirNode? then {node.dir} else {})
    requires node.DirNode? ==> node.dir !in img.views
    requires forall x | x in img'.views :: Listing(img', x) == AttachedListing(img, d, k, node, x)
    ensures Tree(img') == AttachedTree(Tree(img), d, k, node)
  {
    hide Listing;
  }

  lemma AttachListingAt(img: Image, d: nat, k: Key, g: Group, cs: seq<nat>, dots: View, disk': Disk, x: nat)
    requires ValidImage(img) && AttachReady(img, d, k, g, cs, dots, disk')
    requires var img' := Attached(img, d, k, g, cs, dots).(disk := disk');
             x in img'.views && forall h | h in img.chains && h != d :: Same(img, img', h)
    ensures var img' := Attached(img, d, k, g, cs, dots).(disk := disk');
            Listing(img', x) == AttachedListing(img, d, k, NodeOf(img', g.entry), x)
  {
    var img' := Attached(img, d, k, g, cs, dots).(disk := disk');
    hide Storage, AllSlots, AllPlaced, AllOwners, AllEntries, FirstCluster, IsDirectory, Same, NodeOf, Attached,
         ValidDirectory, IsChain, SameNames, Listing;
    AttachedViews(img, d, k, g, cs, dots, x);
    AttachedViews(img, d, k, g, cs, dots, d);
    if x in img.views {
      AttachNames(img, img', d, x);
    }
    AttachListing(img, img', d, k, g, dots, x);
  }

  /** Names of `img` keep their nodes. */
  ghost predicate SameNames(img: Image, img': Image, x: nat)
    requires x in img.views
  {
    forall y | y in img.views[x] && !IsDot(y) ::
      NodeOf(img', img.views[x][y].entry) == NodeOf(img, img.views[x][y].entry)
  }

  lemma AttachNames(img: Image, img': Image, d: nat, x: nat)
    requires ValidImage(img) && d in img.views && x in img.views && 0 !in img'.chains
    requires forall h | h in img.chains && h != d :: Same(img, img', h)
    ensures SameNames(img, img', x)
  {
    hide ValidImage, FirstCluster, IsDirectory, Same, NodeOf, IsDot;
    forall y | y in img.views[x] && !IsDot(y)
      ensures NodeOf(img', img.views[x][y].entry) == NodeOf(img, img.views[x][y].entry)
    {
      assert Listed(img, x, y);
      NodeKept(img, img', x, y);
    }
  }

  lemma AttachListing(img: Image, img': Image, d: nat, k: Key, g: Group, dots: View, x: nat)
    requires x in img'.views && d in img.views && !IsDot(k)
    requires x in img.views ==> SameNames(img, img', x)
    requires x == d ==> img'.views[x] == img.views[d][k := g]
    requires x in img.views && x != d ==> img'.views[x] == img.views[x]
    requires x !in img.views ==> img'.views[x] == dots && dots.Keys == {[DOT], [DOT, DOT]}
    ensures Listing(img', x) ==
            if x == d then Listing(img, d)[k := NodeOf(img', g.entry)]
            else if x in img.views then Listing(img, x) else map[]
  {
    DotKeys();
    hide NodeOf, IsDot;
  }

  lemma NodeKind(img: Image, e: Slot)
    ensures NodeOf(img, e).DirNode? <==> IsDirectory(e)
    ensures IsDirectory(e) ==> NodeOf(img, e) == DirNode(FirstCluster(e))
  {
  }

  // -------------------------------------------------------- a name leaves

  ghost function DetachedTree(tree: FileSystem, d: nat, k: Key): FileSystem
    requires d in tree && k in tree[d]
  {
    match tree[d][k]
    case DirNode(f) => (tree - {f})[d := tree[d] - {k}]
    case FileNode(_) => tree[d := tree[d] - {k}]
  }

  ghost predicate DetachReady(img: Image, d: nat, k: Key, disk': Disk) {
    && Detachable(img, d, k) && d in img.chains
    && DiskOff(img.disk, disk', img.chains[d]) && ValidDisk(disk', img.size)
    && ValidDirectory(DirSlots(disk', img.chains[d]), img.views[d] - {k})
  }

  lemma DetachStep(img: Image, d: nat, k: Key, disk': Disk)
    requires ValidImage(img) && DetachReady(img, d, k, disk')
    ensures var img' := Detached(img, d, k).(disk := disk');
            var f := FirstCluster(EntryOf(img, d, k));
            && ValidImage(img') && d in Tree(img) && k in Tree(img)[d]
            && Tree(img') == DetachedTree(Tree(img), d, k)
            && (f in img.chains ==> Unowned(img', img.chains[f]))
            && f != d
  {
    var linked := Detached(img, d, k);
    var img' := linked.(disk := disk');
    DetachLinked(img, d, k);
    LinkedAnywhere(linked, img.fat, disk');
    assert linked.fat == img.fat;
    assert img' == linked.(fat := img.fat, disk := disk');
    SoleReference(img, d, k, d, k);
    DetachStorage(img, d, k, disk');
    hide Linked, Storage, DetachReady, Detached, Tree, DetachedTree, SlotsOk, Same, Listing, FirstCluster, Unowned,
         Detachable;
    forall x | x in img'.views ensures SlotsOk(img', x) && Listing(img', x) == DetachedListing(img, d, k, x) {
      DetachedViews(img, d, k, x);
      DetachDir(img, img', d, k, x);
    }
    DetachKeys(img, d, k);
    TreeDetached(img, img', d, k);
  }

  lemma DetachStorage(img: Image, d: nat, k: Key, disk': Disk)
    requires ValidImage(img) && DetachReady(img, d, k, disk')
    ensures var img' := Detached(img, d, k).(disk := disk');
            var f := FirstCluster(EntryOf(img, d, k));
            && Storage(img') && (f in img.chains ==> Unowned(img', img.chains[f]))
            && forall h | h in img'.chains && h != d :: Same(img, img', h)
  {
    hide Linked, AllSlots, ValidDirectory, FirstCluster, IsDirectory;
    var f := FirstCluster(EntryOf(img, d, k));
    var img' := Detached(img, d, k).(disk := disk');
    DropChain(img.fat, img.chains, f);
    forall h | h in img'.chains && h != d ensures Same(img, img', h) {
      assert Apart(img.chains[h], img.chains[d]);
      SameOff(img, img', h, img.chains[d]);
    }
  }

  lemma DetachedViews(img: Image, d: nat, k: Key, x: nat)
    requires Listed(img, d, k)
    ensures var img' := Detached(img, d, k);
            var f := FirstCluster(EntryOf(img, d, k));
            && img'.size == img.size
            && d in img'.views && img'.views[d] == img.views[d] - {k}
            && (x in img.chains && x != f ==> x in img'.chains && img'.chains[x] == img.chains[x])
            && (x in img'.views && x != d ==> x in img.views && x != f && img'.views[x] == img.views[x])
  {
    hide FirstCluster;
  }

  ghost function DetachedListing(img: Image, d: nat, k: Key, x: nat): map<Key, Node>
    requires x in img.views
  {
    if x == d then Listing(img, x) - {k} else Listing(img, x)
  }

  lemma DetachDir(img: Image, img': Image, d: nat, k: Key, x: nat)
    requires ValidImage(img) && Detachable(img, d, k) && d in img.chains
    requires var f := FirstCluster(EntryOf(img, d, k)); img' == Detached(img, d, k).(disk := img'.disk) && f != d
    requires ValidDirectory(DirSlots(img'.disk, img.chains[d]), img.views[d] - {k})
    requires x in img.views && x in img'.views
    requires forall h | h in img'.chains && h != d :: Same(img, img', h)
    ensures SlotsOk(img', x) && Listing(img', x) == DetachedListing(img, d, k, x)
  {
    DetachedViews(img, d, k, x);
    DetachedViews(img, d, k, d);
    DetachNames(img, img', d, k, x);
    assert AllSlots(img) && (x != d ==> x in img'.chains) by {
      hide Detached, Storage, AllPlaced, AllOwners, AllEntries, FirstCluster;
    }
    hide ValidDirectory, FirstCluster, IsDirectory, ValidImage, NodeOf, Detachable, Detached, Same, IsDot;
    if x != d {
      SlotsKept(img, img', x);
    }
    assert img'.views[x] == if x == d then img.views[x] - {k} else img.views[x];
    DetachListing(img, img', d, k, x);
  }

  lemma DetachListing(img: Image, img': Image, d: nat, k: Key, x: nat)
    requires x in img.views && x in img'.views
    requires img'.views[x] == if x == d then img.views[x] - {k} else img.views[x]
    requires forall y | y in img.views[x] && !IsDot(y) && !(x == d && y == k) ::
              NodeOf(img', img.views[x][y].entry) == NodeOf(img, img.views[x][y].entry)
    ensures Listing(img', x) == DetachedListing(img, d, k, x)
  {
    hide NodeOf, IsDot;
  }

  lemma DetachNames(img: Image, img': Image, d: nat, k: Key, x: nat)
    requires ValidImage(img) && Detachable(img, d, k) && x in img.views && d in img.chains
    requires img' == Detached(img, d, k).(disk := img'.disk)
    requires forall h | h in img'.chains && h != d :: Same(img, img', h)
    ensures forall y | y in img.views[x] && !IsDot(y) && !(x == d && y == k) ::
              NodeOf(img', img.views[x][y].entry) == NodeOf(img, img.views[x][y].entry)
  {
    assert 0 !in img'.chains;
    forall y | y in img.views[x] && !IsDot(y) && !(x == d && y == k)
      ensures NodeOf(img', img.views[x][y].entry) == NodeOf(img, img.views[x][y].entry)
    {
      assert Listed(img, x, y);
      SoleReference(img, d, k, x, y);
      DetachedViews(img, d, k, FirstCluster(img.views[x][y].entry));
      hide ValidImage, Detachable, Detached, FirstCluster, IsDirectory, NodeOf, IsDot, Same;
      NodeKept(img, img', x, y);
    }
  }

  lemma DetachKeys(img: Image, d: nat, k: Key)
    requires ValidImage(img) && Detachable(img, d, k)
    ensures var e := EntryOf(img, d, k);
            Detached(img, d, k).views.Keys == img.views.Keys - (if IsDirectory(e) then {FirstCluster(e)} else {})
  {
    hide Storage, Linked, AllSlots, IsDirectory, FirstCluster, IsDot;
    SoleReference(img, d, k, d, k);
    EntryKind(img, d, k);
    hide Detachable;
    DetachedKeys(img, d, k);
  }

  lemma DetachedKeys(img: Image, d: nat, k: Key)
    requires Listed(img, d, k) && FirstCluster(EntryOf(img, d, k)) != d
    ensures Detached(img, d, k).views.Keys == img.views.Keys - {FirstCluster(EntryOf(img, d, k))}
  {
    hide FirstCluster;
  }

  lemma EntryKind(img: Image, d: nat, k: Key)
    requires Linked(img) && Listed(img, d, k) && !IsDot(k)
    ensures var e := EntryOf(img, d, k);
            var f := FirstCluster(e);
            && (IsDirectory(e) <==> f in img.views)
            && (f != 0 ==> f in img.owner && img.owner[f] == Owner(d, k) && f in img.chains && f != img.root)
            && d in img.chains && 0 !in img.chains
            && (!IsDirectory(e) ==> (f == 0 <==> Size(e) == 0))
  {
    hide AllPlaced, AllOwners, IsDirectory, FirstCluster, Size, IsDot;
    assert EntryOk(img, d, k);
  }

  lemma TreeDetached(img: Image, img': Image, d: nat, k: Key)
    requires Listed(img, d, k) && !IsDot(k)
    requires var e := EntryOf(img, d, k);
             && img'.views.Keys == img.views.Keys - (if IsDirectory(e) then {FirstCluster(e)} else {})
             && (IsDirectory(e) ==> FirstCluster(e) != d)
    requires forall x | x in img'.views :: x in img.views && Listing(img', x) == DetachedListing(img, d, k, x)
    ensures d in Tree(img) && k in Tree(img)[d] && Tree(img') == DetachedTree(Tree(img), d, k)
  {
    NodeKind(img, EntryOf(img, d, k));
    hide NodeOf, IsDirectory, FirstCluster;
  }

  // ------------------------------------------------- a file is rewritten

  ghost function Rewritten(img: Image, d: nat, k: Key, entry: Slot, cs: seq<nat>): Image
    requires Listed(img, d, k)
  {
    Attached(Detached(img, d, k), d, k, img.views[d][k].(entry := entry), cs, map[])
  }

  /** The file of (`d`, `k`) gets chain `cs`, built from its old one and free clusters, and an
      entry to match. */
  ghost predicate RewriteReady(img: Image, d: nat, k: Key, entry: Slot, cs: seq<nat>, fat': Table, disk': Disk) {
    && Listed(img, d, k) && !IsDot(k) && !IsDirectory(EntryOf(img, d, k)) && !IsDirectory(entry) && d in img.chains
    && (var f := FirstCluster(EntryOf(img, d, k));
        && AgreeOff(img.fat, fat', OldChain(img.chains, f) + cs)
        && (forall c | c in cs :: c in OldChain(img.chains, f) || IsFree(img.fat, c))
        && DiskOff(img.disk, disk', OldChain(img.chains, f) + cs + img.chains[d]) && ValidDisk(disk', img.size))
    && ValidDirectory(DirSlots(disk', img.chains[d]), img.views[d][k := img.views[d][k].(entry := entry)])
    && (if cs == [] then FirstCluster(entry) == 0 && Size(entry) == 0
        else IsChain(fat', cs) && cs[0] == FirstCluster(entry) != 0 && 0 < Size(entry) <= |cs| * img.size)
  }

  lemma RewriteStep(img: Image, d: nat, k: Key, entry: Slot, cs: seq<nat>, fat': Table, disk': Disk)
    requires ValidImage(img) && RewriteReady(img, d, k, entry, cs, fat', disk')
    ensures var img' := Rewritten(img, d, k, entry, cs).(fat := fat', disk := disk');
            && ValidImage(img') && d in Tree(img)
            && Tree(img') == Tree(img)[d := Tree(img)[d][k := NodeOf(img', entry)]]
  {
    hide Linked, Storage, AllSlots, RewriteReady, Rewritten, Tree, SlotsOk, Same, Listing, FirstCluster;
    RewriteFacts(img, d, k, entry, cs, fat', disk');
    var linked := Rewritten(img, d, k, entry, cs);
    var img' := linked.(fat := fat', disk := disk');
    RewriteLinked(img, d, k, entry, cs, fat', disk');
    LinkedAnywhere(linked, fat', disk');
    RewriteStorage(img, d, k, entry, cs, fat', disk');
    forall x | x in img'.views ensures x in img.views && SlotsOk(img', x)
                                 && Listing(img', x) == RewrittenListing(img, d, k, NodeOf(img', entry), x) {
      RewriteDir(img, img', d, k, entry, cs, x);
    }
    AllSlotsFrom(img');
    TreeRewritten(img, img', d, k, NodeOf(img', entry));
  }

  lemma AllSlotsFrom(img: Image)
    requires forall x | x in img.views :: SlotsOk(img, x)
    ensures AllSlots(img)
  {
    hide SlotsOk;
  }

  lemma RewriteFacts(img: Image, d: nat, k: Key, entry: Slot, cs: seq<nat>, fat': Table, disk': Disk)
    requires ValidImage(img) && RewriteReady(img, d, k, entry, cs, fat', disk')
    ensures Listed(img, d, k) && !IsDot(k) && !IsDirectory(EntryOf(img, d, k)) && d in img.chains
    ensures ValidDirectory(DirSlots(disk', img.chains[d]), img.views[d][k := img.views[d][k].(entry := entry)])
    ensures var f := FirstCluster(EntryOf(img, d, k));
            f !in img.views && f != d && d in img.views
    ensures 0 !in Rewritten(img, d, k, entry, cs).chains
  {
    hide Storage, AllSlots, Linked, ValidDirectory, FirstCluster, IsDirectory, Size, IsDot, IsChain;
    EntryKind(img, d, k);
    RewrittenViews(img, d, k, entry, cs);
    hide Rewritten;
  }

  lemma RewrittenViews(img: Image, d: nat, k: Key, entry: Slot, cs: seq<nat>)
    requires Listed(img, d, k) && !IsDirectory(EntryOf(img, d, k)) && !IsDirectory(entry)
    requires FirstCluster(EntryOf(img, d, k)) !in img.views && 0 !in img.chains
    requires if cs == [] then FirstCluster(entry) == 0 else cs[0] == FirstCluster(entry) != 0
    ensures var img' := Rewritten(img, d, k, entry, cs);
            && img'.views == img.views[d := img.views[d][k := img.views[d][k].(entry := entry)]]
            && img'.chains == Rechained(img.chains, FirstCluster(EntryOf(img, d, k)), cs)
            && img'.size == img.size && img'.root == img.root
  {
    hide FirstCluster, IsDirectory;
    var f := FirstCluster(EntryOf(img, d, k));
    assert img.views - {f} == img.views;
    assert (img.views[d] - {k})[k := img.views[d][k].(entry := entry)] ==
           img.views[d][k := img.views[d][k].(entry := entry)];
  }

  lemma NewHeadFree(img: Image, d: nat, k: Key, entry: Slot, cs: seq<nat>, fat': Table, disk': Disk)
    requires ValidImage(img) && RewriteReady(img, d, k, entry, cs, fat', disk') && cs != []
    ensures cs[0] !in img.chains - {FirstCluster(EntryOf(img, d, k))}
  {
    hide Linked, AllSlots, FirstCluster, IsDirectory, ValidDirectory, IsChain;
    var f := FirstCluster(EntryOf(img, d, k));
    var h := cs[0];
    assert h in cs;
    if h in img.chains {
      assert ChainAt(img.fat, img.chains, h);
      HeadIn(img.fat, img.chains, h);
      ChainInUse(img.fat, img.chains[h], h);
      if f in img.chains && h != f {
        var apart := Apart(img.chains[h], img.chains[f]);
      }
    }
  }

  lemma HeadIn(fat: Table, chains: Chains, h: nat)
    requires h in chains && ChainAt(fat, chains, h)
    ensures h in chains[h]
  {
  }

  lemma RewriteLinked(img: Image, d: nat, k: Key, entry: Slot, cs: seq<nat>, fat': Table, disk': Disk)
    requires ValidImage(img) && RewriteReady(img, d, k, entry, cs, fat', disk')
    ensures Linked(Rewritten(img, d, k, entry, cs))
  {
    EntryKind(img, d, k);
    if cs != [] { NewHeadFree(img, d, k, entry, cs, fat', disk'); }
    hide Linked, Storage, AllSlots, FirstCluster, Size, IsDirectory, IsDot, ValidDirectory, IsChain;
    DetachLinked(img, d, k);
    assert img.views[d][k].entry == EntryOf(img, d, k);
    DetachedViews(img, d, k, d);
    var mid := Detached(img, d, k);
    assert mid.chains == img.chains - {FirstCluster(EntryOf(img, d, k))};
    hide Detached;
    assert Attachable(mid, d, k, img.views[d][k].(entry := entry), cs, map[]);
    AttachLinked(mid, d, k, img.views[d][k].(entry := entry), cs, map[]);
  }

  lemma RewriteStorage(img: Image, d: nat, k: Key, entry: Slot, cs: seq<nat>, fat': Table, disk': Disk)
    requires ValidImage(img) && RewriteReady(img, d, k, entry, cs, fat', disk')
    ensures var img' := Rewritten(img, d, k, entry, cs).(fat := fat', disk := disk');
            var f := FirstCluster(EntryOf(img, d, k));
            && Storage(img') && img'.views == img.views[d := img.views[d][k := img.views[d][k].(entry := entry)]]
            && (f != d ==> d in img'.chains && img'.chains[d] == img.chains[d])
            && forall h | h in img.chains && h != d && h != f :: Same(img, img', h)
  {
    hide Linked, AllSlots, FirstCluster, IsDirectory, Size, ValidDirectory, IsChain, Rewritten, IsDot;
    EntryKind(img, d, k);
    RewrittenViews(img, d, k, entry, cs);
    var f := FirstCluster(EntryOf(img, d, k));
    RechainValid(img.fat, fat', img.chains, f, cs);
    var img' := Rewritten(img, d, k, entry, cs).(fat := fat', disk := disk');
    assert img'.chains == Rechained(img.chains, f, cs);
    var touched := OldChain(img.chains, f) + cs + img.chains[d];
    forall h | h in img.chains && h != f ensures h in img'.chains && img'.chains[h] == img.chains[h] {
      if cs != [] { NewHeadFree(img, d, k, entry, cs, fat', disk'); }
    }
    forall h | h in img.chains && h != d && h != f ensures Same(img, img', h) {
      RewriteSame(img, d, f, cs, h);
      SameOff(img, img', h, touched);
    }
  }

  lemma RewriteSame(img: Image, d: nat, f: nat, cs: seq<nat>, h: nat)
    requires Storage(img) && d in img.chains && h in img.chains && h != d && h != f
    requires forall c | c in cs :: c in OldChain(img.chains, f) || IsFree(img.fat, c)
    ensures Apart(img.chains[h], OldChain(img.chains, f) + cs + img.chains[d])
  {
    hide IsChain;
    assert ChainAt(img.fat, img.chains, h);
    assert Apart(img.chains[h], img.chains[d]);
    if f in img.chains { assert Apart(img.chains[h], img.chains[f]); }
    forall c | c in img.chains[h] ensures c !in OldChain(img.chains, f) + cs + img.chains[d] {
      ChainInUse(img.fat, img.chains[h], c);
    }
  }

  ghost function RewrittenListing(img: Image, d: nat, k: Key, node: Node, x: nat): map<Key, Node>
    requires x in img.views
  {
    if x == d then Listing(img, x)[k := node] else Listing(img, x)
  }

  lemma RewriteDir(img: Image, img': Image, d: nat, k: Key, entry: Slot, cs: seq<nat>, x: nat)
    requires ValidImage(img) && Listed(img, d, k) && !IsDot(k) && d in img'.chains && img'.chains[d] == img.chains[d]
    requires img'.views == img.views[d := img.views[d][k := img.views[d][k].(entry := entry)]]
    requires forall h | h in img.chains && h != d && h != FirstCluster(EntryOf(img, d, k)) :: Same(img, img', h)
    requires ValidDirectory(DirSlots(img'.disk, img.chains[d]), img'.views[d])
    requires x in img'.views && 0 !in img'.chains && !IsDirectory(EntryOf(img, d, k))
    ensures x in img.views && SlotsOk(img', x)
            && Listing(img', x) == RewrittenListing(img, d, k, NodeOf(img', entry), x)
  {
    hide ValidDirectory, FirstCluster, IsDirectory, NodeOf, Same, IsDot, Linked, Storage, AllSlots;
    EntryKind(img, d, k);
    ViewIsChain(img, x);
    RewriteNames(img, img', d, k, x);
    if x != d {
      SlotsKept(img, img', x);
    }
    RewriteListing(img, img', d, k, entry, x);
  }

  lemma ViewIsChain(img: Image, x: nat)
    requires Linked(img) && x in img.views
    ensures x in img.chains
  {
    hide AllPlaced, AllOwners, AllEntries;
  }

  lemma RewriteListing(img: Image, img': Image, d: nat, k: Key, entry: Slot, x: nat)
    requires Listed(img, d, k) && !IsDot(k) && x in img.views
    requires img'.views == img.views[d := img.views[d][k := img.views[d][k].(entry := entry)]]
    requires forall y | y in img.views[x] && !IsDot(y) && !(x == d && y == k) ::
              NodeOf(img', img.views[x][y].entry) == NodeOf(img, img.views[x][y].entry)
    ensures Listing(img', x) == RewrittenListing(img, d, k, NodeOf(img', entry), x)
  {
    hide NodeOf, IsDot;
  }

  lemma RewriteNames(img: Image, img': Image, d: nat, k: Key, x: nat)
    requires ValidImage(img) && Listed(img, d, k) && !IsDot(k) && x in img.views && 0 !in img'.chains
    requires forall h | h in img.chains && h != d && h != FirstCluster(EntryOf(img, d, k)) :: Same(img, img', h)
    ensures forall y | y in img.views[x] && !IsDot(y) && !(x == d && y == k) ::
              NodeOf(img', img.views[x][y].entry) == NodeOf(img, img.views[x][y].entry)
  {
    hide Storage, Linked, AllSlots, FirstCluster, IsDirectory, NodeOf, IsDot, Same;
    EntryKind(img, d, k);
    forall y | y in img.views[x] && !IsDot(y) && !(x == d && y == k)
      ensures NodeOf(img', img.views[x][y].entry) == NodeOf(img, img.views[x][y].entry)
    {
      assert Listed(img, x, y);
      EntryKind(img, x, y);
      NodeKept(img, img', x, y);
    }
  }

  lemma TreeRewritten(img: Image, img': Image, d: nat, k: Key, node: Node)
    requires d in img.views && img'.views.Keys == img.views.Keys
    requires forall x | x in img'.views :: x in img.views && Listing(img', x) == RewrittenListing(img, d, k, node, x)
    ensures d in Tree(img) && Tree(img') == Tree(img)[d := Tree(img)[d][k := node]]
  {
    hide Listing;
  }
}
