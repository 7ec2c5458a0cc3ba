/** The file system as a tree of paths: what each operation does to every path at once. */
module FatTree {
  import opened FatSlots
  import opened FatImage
  import opened FatMoves

  /** `paths` gives every directory its one place below the root. */
  ghost predicate Rooted(tree: FileSystem, root: nat, paths: map<nat, seq<Key>>) {
    && root in tree && paths.Keys == tree.Keys && paths[root] == []
    && (forall d, k | d in tree && k in tree[d] :: ChildOk(tree, paths, d, k))
    && (forall d, e | d in tree && e in tree && paths[d] == paths[e] :: d == e)
    && (forall d | d in tree && d != root :: exists up, k :: ChildAt(tree, up, k, d))
  }

  ghost predicate ChildAt(tree: FileSystem, up: nat, k: Key, d: nat) {
    up in tree && k in tree[up] && tree[up][k] == DirNode(d)
  }

  ghost predicate ChildOk(tree: FileSystem, paths: map<nat, seq<Key>>, d: nat, k: Key)
    requires d in tree && k in tree[d] && d in paths
  {
    tree[d][k].DirNode? ==> tree[d][k].dir in tree && tree[d][k].dir in paths && paths[tree[d][k].dir] == paths[d] + [k]
  }

  /** The file system of a valid volume is such a tree. */
  lemma TreeRooted(img: Image)
    requires ValidImage(img)
    ensures Rooted(Tree(img), img.root, img.paths)
  {
    hide Storage, AllSlots, DotsOk, NodeOf, FirstCluster, IsDirectory, IsDot, Size;
    var tree := Tree(img);
    forall d, k | d in tree && k in tree[d] ensures ChildOk(tree, img.paths, d, k) {
      TreeChild(img, d, k);
    }
    forall d, e | d in tree && e in tree && img.paths[d] == img.paths[e] ensures d == e {
      PathInjective(img, d, e);
    }
    forall d | d in tree && d != img.root ensures exists up, k :: ChildAt(tree, up, k, d) {
      TreeParent(img, d);
    }
  }

  lemma TreeChild(img: Image, d: nat, k: Key)
    requires ValidImage(img) && d in Tree(img) && k in Tree(img)[d]
    ensures d in img.paths && ChildOk(Tree(img), img.paths, d, k)
  {
    hide Storage, AllSlots, DotsOk, FirstCluster, IsDirectory, IsDot, Size, AllOwners, AllEntries;
    var e := EntryOf(img, d, k);
    NodeKind(img, e);
    EntryKind(img, d, k);
    if IsDirectory(e) {
      assert Placed(img, FirstCluster(e));
    }
    hide NodeOf;
  }

  lemma TreeParent(img: Image, d: nat)
    requires ValidImage(img) && d in img.views && d != img.root
    ensures exists up, k :: ChildAt(Tree(img), up, k, d)
  {
    hide Storage, AllSlots, DotsOk, FirstCluster, IsDirectory, IsDot, Size, AllEntries;
    assert Placed(img, d);
    assert OwnerOk(img, d);
    var o := img.owner[d];
    NodeKind(img, EntryOf(img, o.dir, o.key));
    EntryKind(img, o.dir, o.key);
    hide NodeOf;
    assert ChildAt(Tree(img), o.dir, o.key, d);
  }

  // ------------------------------------------------------- one path each

  lemma ChildPlace(tree: FileSystem, root: nat, paths: map<nat, seq<Key>>, d: nat, k: Key)
    requires Rooted(tree, root, paths) && d in tree && k in tree[d]
    ensures paths.Keys == tree.Keys
    ensures tree[d][k].DirNode? ==> tree[d][k].dir in tree && paths[tree[d][k].dir] == paths[d] + [k]
  {
    hide ChildAt;
    assert ChildOk(tree, paths, d, k);
  }

  /** A directory found from `x` lies where the names say. */
  lemma {:induction false} FoundPlace(tree: FileSystem, root: nat, paths: map<nat, seq<Key>>, x: nat, p: seq<Key>)
    requires Rooted(tree, root, paths) && x in tree
    ensures match Lookup(tree, x, p)
            case At(DirNode(d)) => d in tree && paths[d] == paths[x] + p
            case _ => true
    decreases |p|
  {
    hide Rooted;
    RootFacts(tree, root, paths);
    if p != [] && p[0] in tree[x] {
      ChildPlace(tree, root, paths, x, p[0]);
      match tree[x][p[0]]
      case DirNode(e) =>
        FoundPlace(tree, root, paths, e, p[1..]);
        assert paths[x] + [p[0]] + p[1..] == paths[x] + p;
      case FileNode(_) =>
    }
  }

  /** Every directory is found at its path. */
  lemma {:induction false} Reached(tree: FileSystem, root: nat, paths: map<nat, seq<Key>>, d: nat)
    requires Rooted(tree, root, paths) && d in tree
    ensures Lookup(tree, root, paths[d]) == At(DirNode(d))
    decreases |paths[d]|
  {
    if d != root {
      var up, k :| ChildAt(tree, up, k, d);
      assert ChildOk(tree, paths, up, k);
      Reached(tree, root, paths, up);
      LookupSnoc(tree, root, paths[up], k);
    }
  }

  /** Directories and paths correspond one to one: there is no second way to any directory. */
  lemma OnePath(img: Image, d: nat, p: seq<Key>)
    requires ValidImage(img)
    ensures Lookup(Tree(img), img.root, p) == At(DirNode(d)) <==> d in img.views && d in img.paths && img.paths[d] == p
  {
    hide *;
    TreeRooted(img);
    RootedKeys(img);
    FoundPlace(Tree(img), img.root, img.paths, img.root, p);
    if d in img.views && img.paths[d] == p {
      Reached(Tree(img), img.root, img.paths, d);
    }
    assert [] + p == p;
  }

  lemma RootedKeys(img: Image)
    requires Rooted(Tree(img), img.root, img.paths)
    ensures img.root in Tree(img) && img.root in img.paths && img.paths[img.root] == []
            && img.paths.Keys == img.views.Keys
    ensures forall d :: d in img.views <==> d in Tree(img)
  {
    hide Listing, ChildOk, ChildAt;
  }

  /** Following two stretches of names one after the other. */
  lemma {:induction false} LookupAppend(tree: FileSystem, x: nat, p: seq<Key>, q: seq<Key>)
    ensures Lookup(tree, x, p + q) ==
            match Lookup(tree, x, p)
            case At(DirNode(e)) => Lookup(tree, e, q)
            case At(FileNode(b)) => if q == [] then At(FileNode(b)) else NotDir
            case other => other
    decreases |p|
  {
    if p == [] {
      assert p + q == q;
    } else if x in tree && p[0] in tree[x] {
      assert (p + q)[1..] == p[1..] + q;
      match tree[x][p[0]]
      case DirNode(e) => LookupAppend(tree, e, p[1..], q);
      case FileNode(_) =>
    }
  }

  // --------------------------------------------------------- local edits

  ghost predicate SameAt(tree: FileSystem, tree': FileSystem, y: nat, j: Key)
    requires y in tree && y in tree'
  {
    (j in tree[y] <==> j in tree'[y]) && (j in tree[y] ==> tree'[y][j] == tree[y][j])
  }

  /** The trees differ only at the paths `a` and `b`; a directory may only vanish at `a`. */
  ghost predicate EditedAt(tree: FileSystem, paths: map<nat, seq<Key>>, tree': FileSystem, a: seq<Key>, b: seq<Key>) {
    && paths.Keys == tree.Keys
    && (forall y | y in tree && paths[y] != a :: y in tree')
    && (forall y, j | y in tree && y in tree' && paths[y] + [j] != a && paths[y] + [j] != b ::
      SameAt(tree, tree', y, j))
  }

  /** The names `p` below `x` never pass through `edit`. */
  ghost predicate Avoids(start: seq<Key>, p: seq<Key>, edit: seq<Key>) {
    edit <= start + p ==> |edit| <= |start|
  }

  lemma {:induction false} LookupElsewhere(tree: FileSystem, root: nat, paths: map<nat, seq<Key>>, tree': FileSystem,
                                           a: seq<Key>, b: seq<Key>, x: nat, p: seq<Key>)
    requires Rooted(tree, root, paths) && EditedAt(tree, paths, tree', a, b) && x in tree && x in tree'
    requires Avoids(paths[x], p, a) && Avoids(paths[x], p, b)
    ensures Lookup(tree', x, p) == Lookup(tree, x, p)
    decreases |p|
  {
    hide Rooted, EditedAt, Avoids;
    if p != [] {
      StepElsewhere(tree, root, paths, tree', a, b, x, p);
      if p[0] in tree[x] {
        match tree[x][p[0]]
        case DirNode(e) =>
          LookupElsewhere(tree, root, paths, tree', a, b, e, p[1..]);
        case FileNode(_) =>
      }
    }
  }

  lemma StepElsewhere(tree: FileSystem, root: nat, paths: map<nat, seq<Key>>, tree': FileSystem,
                      a: seq<Key>, b: seq<Key>, x: nat, p: seq<Key>)
    requires Rooted(tree, root, paths) && EditedAt(tree, paths, tree', a, b) && x in tree && x in tree' && p != []
    requires Avoids(paths[x], p, a) && Avoids(paths[x], p, b)
    ensures SameAt(tree, tree', x, p[0])
    ensures p[0] in tree[x] && tree[x][p[0]].DirNode? ==>
              var e := tree[x][p[0]].dir;
              && e in tree && e in tree' && e in paths
              && Avoids(paths[e], p[1..], a) && Avoids(paths[e], p[1..], b)
  {
    RootFacts(tree, root, paths);
    hide Rooted, Avoids;
    AvoidsStep(paths[x], p, a);
    AvoidsStep(paths[x], p, b);
    if p[0] in tree[x] {
      ChildPlace(tree, root, paths, x, p[0]);
    }
  }

  lemma AvoidsStep(start: seq<Key>, p: seq<Key>, edit: seq<Key>)
    requires p != [] && Avoids(start, p, edit)
    ensures Avoids(start + [p[0]], p[1..], edit) && start + [p[0]] != edit
  {
    var here := start + [p[0]];
    assert here <= start + p && here + p[1..] == start + p;
  }

  /** The parent of an edited path is still found, and the edited name is read from it. */
  lemma AtEdit(tree: FileSystem, root: nat, paths: map<nat, seq<Key>>, tree': FileSystem,
               a: seq<Key>, b: seq<Key>, d: nat, k: Key)
    requires Rooted(tree, root, paths) && EditedAt(tree, paths, tree', a, b) && d in tree && d in tree' && root in tree'
    requires !(a <= paths[d]) && !(b <= paths[d])
    ensures Lookup(tree', root, paths[d] + [k]) == if k in tree'[d] then At(tree'[d][k]) else Missing
  {
    hide Rooted, EditedAt, Lookup;
    RootFacts(tree, root, paths);
    Reached(tree, root, paths, d);
    assert [] + paths[d] == paths[d];
    LookupElsewhere(tree, root, paths, tree', a, b, root, paths[d]);
    LookupSnoc(tree', root, paths[d], k);
  }

  lemma RootFacts(tree: FileSystem, root: nat, paths: map<nat, seq<Key>>)
    requires Rooted(tree, root, paths)
    ensures root in tree && paths.Keys == tree.Keys && paths[root] == []
  {
  }

  /** What lies below a path depends only on what lies at it. */
  lemma BelowEdit(tree: FileSystem, root: nat, at: seq<Key>, q: seq<Key>)
    requires at <= q
    ensures Lookup(tree, root, q) ==
            match Lookup(tree, root, at)
            case At(DirNode(e)) => Lookup(tree, e, q[|at|..])
            case At(FileNode(b)) => if q == at then At(FileNode(b)) else NotDir
            case other => other
  {
    assert q == at + q[|at|..];
    LookupAppend(tree, root, at, q[|at|..]);
  }
}
