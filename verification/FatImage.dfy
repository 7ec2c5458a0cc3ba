/** The whole volume: storage, the registry of chains and names that the storage stands for, the
    invariant kept by every operation, and the file system it refines. */
module FatImage {
  import opened Bytes
  import opened FatSlots
  import opened FatTables
  import opened FatBlocks
  import opened FatDirectory

  type Key = Str

  /** The directory and name that refer to a chain. */
  datatype Owner = Owner(dir: nat, key: Key)

  /** `chains` maps a head to its clusters, `views` a directory (by its first cluster) to its
      names, `owner` a head to the one name that refers to it, `paths` a directory to its place
      below the root. */
  datatype Image = Image(
    size: nat, root: nat,
    fat: Table, disk: Disk,
    chains: Chains, views: map<nat, View>, owner: map<nat, Owner>, paths: map<nat, seq<Key>>)

  predicate IsDot(k: Key) {
    k == [DOT] || k == [DOT, DOT]
  }

  // ------------------------------------------------------------- storage

  ghost predicate Storage(img: Image) {
    && 0 < img.size && img.size % 512 == 0
    && |img.disk| == |img.fat|
    && ValidDisk(img.disk, img.size)
    && ValidChains(img.fat, img.chains)
  }

  ghost function SlotsOf(img: Image, d: nat): seq<Slot>
    requires d in img.chains
  {
    DirSlots(img.disk, img.chains[d])
  }

  ghost function BytesOf(img: Image, h: nat): seq<Byte>
    requires h in img.chains
  {
    ChainBytes(img.disk, img.chains[h])
  }

  /** Chain `h` and its clusters are the same in both images. */
  ghost predicate Same(img: Image, img': Image, h: nat) {
    && h in img.chains && h in img'.chains && img'.chains[h] == img.chains[h]
    && |img'.disk| == |img.disk|
    && forall c | c in img.chains[h] && c < |img.disk| :: img'.disk[c] == img.disk[c]
  }

  lemma SameReads(img: Image, img': Image, h: nat)
    requires Same(img, img', h)
    ensures SlotsOf(img', h) == SlotsOf(img, h) && BytesOf(img', h) == BytesOf(img, h)
  {
    DirSlotsFrame(img.disk, img'.disk, img.chains[h]);
    BlocksFrame(img.disk, img'.disk, img.chains[h]);
  }

  // ----------------------------------------------------------- invariant

  ghost predicate Listed(img: Image, d: nat, k: Key) {
    d in img.views && k in img.views[d]
  }

  ghost function EntryOf(img: Image, d: nat, k: Key): Slot
    requires Listed(img, d, k)
  {
    img.views[d][k].entry
  }

  ghost predicate SlotsOk(img: Image, d: nat)
    requires d in img.views
  {
    d in img.chains && ValidDirectory(SlotsOf(img, d), img.views[d])
  }

  /** A directory other than the root hangs at one name, and its path says where. */
  ghost predicate PlaceOk(img: Image, d: nat)
    requires d in img.views
  {
    && d in img.paths
    && if d == img.root then img.paths[d] == []
       else && d in img.owner && img.owner[d].dir in img.paths
            && img.paths[d] == img.paths[img.owner[d].dir] + [img.owner[d].key]
  }

  ghost predicate DotAt(view: View, k: Key, at: nat) {
    k in view && view[k].start == at && view[k].lfns == 0
  }

  /** Sub-directories start with "." and ".."; ".." names the parent, or 0 for the root. */
  ghost predicate DotsOk(img: Image, d: nat)
    requires d in img.views
  {
    var view := img.views[d];
    if d == img.root then [DOT] !in view && [DOT, DOT] !in view
    else
      && DotAt(view, [DOT], 0) && DotAt(view, [DOT, DOT], 1)
      && FirstCluster(view[[DOT]].entry) == d
      && d in img.owner
      && (var up := FirstCluster(view[[DOT, DOT]].entry);
          up == img.owner[d].dir || (up == 0 && img.owner[d].dir == img.root))
  }

  ghost predicate Placed(img: Image, d: nat)
    requires d in img.views
  {
    PlaceOk(img, d) && DotsOk(img, d)
  }

  /** Every chain but the root's is referred to by the name its owner record says. */
  ghost predicate OwnerOk(img: Image, h: nat)
    requires h in img.owner
  {
    var o := img.owner[h];
    && h != img.root && Listed(img, o.dir, o.key) && !IsDot(o.key)
    && FirstCluster(EntryOf(img, o.dir, o.key)) == h
  }

  /** A name refers to a directory, to a chain long enough for its size, or to nothing. */
  ghost predicate EntryOk(img: Image, d: nat, k: Key)
    requires Listed(img, d, k)
  {
    var e := EntryOf(img, d, k);
    var f := FirstCluster(e);
    !IsDot(k) ==>
      && (f != 0 ==> f in img.owner && img.owner[f] == Owner(d, k) && f in img.chains)
      && if IsDirectory(e) then f in img.views
         else f !in img.views && (f == 0 <==> Size(e) == 0)
              && (f != 0 ==> Size(e) <= |img.chains[f]| * img.size)
  }

  ghost predicate Registered(img: Image) {
    && img.root in img.views && 0 !in img.chains && img.root !in img.owner
    && img.views.Keys <= img.chains.Keys
    && img.chains.Keys == img.owner.Keys + {img.root}
    && img.paths.Keys == img.views.Keys
  }

  ghost predicate AllSlots(img: Image) { forall d | d in img.views :: SlotsOk(img, d) }

  ghost predicate AllPlaced(img: Image) { forall d | d in img.views :: Placed(img, d) }

  ghost predicate AllOwners(img: Image) { forall h | h in img.owner :: OwnerOk(img, h) }

  ghost predicate AllEntries(img: Image) { forall d, k | Listed(img, d, k) :: EntryOk(img, d, k) }

  /** The registry hangs together, whatever the clusters hold. */
  ghost predicate Linked(img: Image) {
    Registered(img) && AllPlaced(img) && AllOwners(img) && AllEntries(img)
  }

  ghost predicate ValidImage(img: Image) {
    Storage(img) && Linked(img) && AllSlots(img)
  }

  lemma ValidParts(img: Image)
    requires ValidImage(img)
    ensures Storage(img) && Linked(img) && AllSlots(img)
  {
  }

  // --------------------------------------------------------- abstraction

  datatype Node = FileNode(bytes: seq<Byte>) | DirNode(dir: nat)

  /** The file system a valid image stands for: directories, identified by their first cluster,
      mapping case-folded names to byte sequences or further directories. */
  type FileSystem = map<nat, map<Key, Node>>

  ghost function NodeOf(img: Image, e: Slot): Node {
    var f := FirstCluster(e);
    if IsDirectory(e) then DirNode(f)
    else if f in img.chains && Size(e) <= |BytesOf(img, f)| then FileNode(BytesOf(img, f)[..Size(e)])
    else FileNode([])
  }

  ghost function Listing(img: Image, d: nat): map<Key, Node>
    requires d in img.views
  {
    map k | k in img.views[d] && !IsDot(k) :: NodeOf(img, img.views[d][k].entry)
  }

  ghost function Tree(img: Image): FileSystem {
    map d | d in img.views :: Listing(img, d)
  }

  lemma SameNode(img: Image, img': Image, e: Slot)
    requires FirstCluster(e) in img.chains ==> IsDirectory(e) || Same(img, img', FirstCluster(e))
    requires FirstCluster(e) !in img.chains ==> FirstCluster(e) !in img'.chains
    ensures NodeOf(img', e) == NodeOf(img, e)
  {
    if FirstCluster(e) in img.chains && !IsDirectory(e) {
      SameReads(img, img', FirstCluster(e));
    }
  }

  lemma BytesLength(img: Image, h: nat)
    requires Storage(img) && h in img.chains
    ensures |BytesOf(img, h)| == |img.chains[h]| * img.size
    ensures ClustersOn(img.disk, img.chains[h])
  {
    assert ChainAt(img.fat, img.chains, h);
    forall i | 0 <= i < |img.chains[h]| ensures img.chains[h][i] < |img.disk| {
      assert LinkAt(img.fat, img.chains[h], i);
    }
    ChainBytesLength(img.disk, img.size, img.chains[h]);
  }

  /** The bytes of a listed file: exactly its size, taken from its chain. */
  lemma FileBytes(img: Image, d: nat, k: Key)
    requires ValidImage(img) && Listed(img, d, k) && !IsDot(k) && !IsDirectory(EntryOf(img, d, k))
    ensures var e := EntryOf(img, d, k);
            var f := FirstCluster(e);
            if f == 0 then Size(e) == 0 && NodeOf(img, e) == FileNode([])
            else f in img.chains && Size(e) <= |BytesOf(img, f)|
                 && NodeOf(img, e) == FileNode(BytesOf(img, f)[..Size(e)])
  {
    hide AllPlaced, AllSlots, AllOwners, Storage;
    assert EntryOk(img, d, k);
    var f := FirstCluster(EntryOf(img, d, k));
    if f != 0 {
      BytesLength(img, f);
    }
  }

  // -------------------------------------------------------------- paths

  /** A directory's path determines it. */
  lemma {:induction false} PathInjective(img: Image, d: nat, e: nat)
    requires Linked(img) && d in img.views && e in img.views && img.paths[d] == img.paths[e]
    ensures d == e
    decreases |img.paths[d]|
  {
    hide DotsOk, AllEntries, FirstCluster;
    assert Placed(img, d) && Placed(img, e);
    if d != img.root && e != img.root {
      assert OwnerOk(img, d) && OwnerOk(img, e);
      var p, q := img.paths[img.owner[d].dir], img.paths[img.owner[e].dir];
      assert img.paths[d][..|p|] == p && img.paths[e][..|q|] == q;
      assert img.paths[d][|p|] == img.owner[d].key && img.paths[e][|q|] == img.owner[e].key;
      PathInjective(img, img.owner[d].dir, img.owner[e].dir);
    }
  }

  datatype Found = Missing | NotDir | At(node: Node)

  /** Following names from a directory. */
  function Lookup(tree: FileSystem, d: nat, path: seq<Key>): Found
    decreases |path|
  {
    if path == [] then At(DirNode(d))
    else if d !in tree || path[0] !in tree[d] then Missing
    else if |path| == 1 then At(tree[d][path[0]])
    else match tree[d][path[0]]
      case DirNode(e) => Lookup(tree, e, path[1..])
      case FileNode(_) => NotDir
  }

  lemma {:induction false} LookupSnoc(tree: FileSystem, d: nat, path: seq<Key>, k: Key)
    requires d in tree
    ensures Lookup(tree, d, path + [k]) ==
            match Lookup(tree, d, path)
            case At(DirNode(e)) => if e in tree && k in tree[e] then At(tree[e][k]) else Missing
            case At(FileNode(_)) => NotDir
            case other => other
    decreases |path|
  {
    if path == [] {
      assert path + [k] == [k];
    } else if path[0] in tree[d] {
      assert (path + [k])[1..] == path[1..] + [k];
      match tree[d][path[0]]
      case DirNode(e) =>
        if e in tree {
          LookupSnoc(tree, e, path[1..], k);
        }
      case FileNode(_) =>
    }
  }
}
