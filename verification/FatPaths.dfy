/** Path-level meaning of the operations: each one changes what is found at and below the paths it
    names and nothing else. */
module FatPaths {
  import opened Bytes
  import opened FatImage
  import opened FatMoves
  import opened FatRelocate
  import opened FatPrune
  import opened FatWrites
  import opened FatTree

  /** What a caller sees at a path; directories carry no cluster number. */
  datatype Seen = Nothing | ThroughFile | File(bytes: seq<Byte>) | Directory

  function SeenAt(tree: FileSystem, root: nat, q: seq<Key>): Seen {
    match Lookup(tree, root, q)
    case Missing => Nothing
    case NotDir => ThroughFile
    case At(FileNode(bytes)) => File(bytes)
    case At(DirNode(_)) => Directory
  }

  /** Nothing on the way to a directory is missing or a file. */
  lemma AbovePlace(tree: FileSystem, root: nat, paths: map<nat, seq<Key>>, d: nat, at: seq<Key>)
    requires Rooted(tree, root, paths) && d in tree && at <= paths[d]
    ensures Lookup(tree, root, at).At? && Lookup(tree, root, at).node.DirNode?
  {
    hide Rooted, Lookup;
    RootFacts(tree, root, paths);
    Reached(tree, root, paths, d);
    BelowEdit(tree, root, at, paths[d]);
  }

  lemma HereFound(tree: FileSystem, root: nat, paths: map<nat, seq<Key>>, d: nat, k: Key)
    requires Rooted(tree, root, paths) && d in tree
    ensures Lookup(tree, root, paths[d] + [k]) == if k in tree[d] then At(tree[d][k]) else Missing
  {
    hide Rooted, Lookup;
    RootFacts(tree, root, paths);
    Reached(tree, root, paths, d);
    LookupSnoc(tree, root, paths[d], k);
  }

  lemma NotOwnPrefix(p: seq<Key>, k: Key)
    ensures !(p + [k] <= p)
  {
  }

  lemma ElsewhereSeen(tree: FileSystem, root: nat, paths: map<nat, seq<Key>>, tree': FileSystem, a: seq<Key>,
                      b: seq<Key>, q: seq<Key>)
    requires Rooted(tree, root, paths) && EditedAt(tree, paths, tree', a, b) && root in tree' && !(a <= q) && !(b <= q)
    ensures Lookup(tree', root, q) == Lookup(tree, root, q)
  {
    hide Rooted, EditedAt, Lookup;
    RootFacts(tree, root, paths);
    assert [] + q == q;
    LookupElsewhere(tree, root, paths, tree', a, b, root, q);
  }

  // ----------------------------------------------------------- write

  ghost function PriorBytes(found: Found, append: bool): seq<Byte> {
    match found
    case At(FileNode(bytes)) => if append then bytes else []
    case _ => []
  }

  lemma WriteEdits(tree: FileSystem, root: nat, paths: map<nat, seq<Key>>, d: nat, k: Key, data: seq<Byte>,
                   append: bool)
    requires Rooted(tree, root, paths) && d in tree
    ensures d in paths
    ensures var at, tree' := paths[d] + [k], WrittenTree(tree, d, k, data, append);
            && EditedAt(tree, paths, tree', at, at) && root in tree' && d in tree' && k in tree'[d]
            && tree'[d][k] == FileNode(PriorBytes(if k in tree[d] then At(tree[d][k]) else Missing, append) + data)
  {
    RootFacts(tree, root, paths);
    hide Rooted;
    SetEdits(tree, root, paths, d, k, WrittenTree(tree, d, k, data, append)[d][k]);
    hide EditedAt;
  }

  /** Setting one name changes the tree at its path alone. */
  lemma SetEdits(tree: FileSystem, root: nat, paths: map<nat, seq<Key>>, d: nat, k: Key, node: Node)
    requires Rooted(tree, root, paths) && d in tree
    ensures d in paths && EditedAt(tree, paths, tree[d := tree[d][k := node]], paths[d] + [k], paths[d] + [k])
  {
    hide Rooted, SameAt;
    RootFacts(tree, root, paths);
    SetSame(tree, d, k, node);
  }

  lemma SetSame(tree: FileSystem, d: nat, k: Key, node: Node)
    requires d in tree
    ensures var tree' := tree[d := tree[d][k := node]];
            forall y, j | y in tree && y in tree' && (y != d || j != k) :: SameAt(tree, tree', y, j)
  {
  }

  /** Writing changes one file, on every path: the file itself, and the nothing below it. */
  lemma WriteSeen(tree: FileSystem, root: nat, paths: map<nat, seq<Key>>, d: nat, k: Key, data: seq<Byte>, append: bool,
                  q: seq<Key>)
    requires Rooted(tree, root, paths) && d in tree
    ensures d in paths
    ensures var at, tree' := paths[d] + [k], WrittenTree(tree, d, k, data, append);
            Lookup(tree', root, q) ==
            if q == at then At(FileNode(PriorBytes(Lookup(tree, root, at), append) + data))
            else if at <= q then NotDir
            else Lookup(tree, root, q)
  {
    hide Rooted, EditedAt, Lookup, WrittenTree;
    RootFacts(tree, root, paths);
    var at, tree' := paths[d] + [k], WrittenTree(tree, d, k, data, append);
    WriteEdits(tree, root, paths, d, k, data, append);
    if at <= q {
      NotOwnPrefix(paths[d], k);
      HereFound(tree, root, paths, d, k);
      AtEdit(tree, root, paths, tree', at, at, d, k);
      BelowEdit(tree', root, at, q);
    } else {
      ElsewhereSeen(tree, root, paths, tree', at, at, q);
    }
  }

  // ----------------------------------------------------------- mkdir

  lemma MakeEdits(tree: FileSystem, root: nat, paths: map<nat, seq<Key>>, d: nat, k: Key, f: nat)
    requires Rooted(tree, root, paths) && d in tree && f !in tree
    ensures d in paths
    ensures var at, tree' := paths[d] + [k], AttachedTree(tree, d, k, DirNode(f));
            && EditedAt(tree, paths, tree', at, at) && root in tree' && d in tree' && k in tree'[d]
            && tree'[d][k] == DirNode(f) && f in tree' && tree'[f] == map[]
  {
    RootFacts(tree, root, paths);
    hide Rooted;
    SetEdits(tree, root, paths, d, k, DirNode(f));
    FreshKeeps(tree, paths, tree[d := tree[d][k := DirNode(f)]], f, paths[d] + [k]);
    hide EditedAt;
  }

  /** An empty directory more, that nothing of the old tree could lead to. */
  lemma FreshKeeps(tree: FileSystem, paths: map<nat, seq<Key>>, tree1: FileSystem, f: nat, at: seq<Key>)
    requires EditedAt(tree, paths, tree1, at, at) && f !in tree
    ensures EditedAt(tree, paths, tree1[f := map[]], at, at)
  {
    assert forall y, j | y in tree && y in tree1 :: SameAt(tree, tree1, y, j) ==> SameAt(tree, tree1[f := map[]], y, j);
    hide SameAt;
  }

  lemma EmptyBelow(tree: FileSystem, f: nat, q: seq<Key>)
    requires f in tree && tree[f] == map[] && q != []
    ensures Lookup(tree, f, q) == Missing
  {
  }

  lemma MakeSeen(tree: FileSystem, root: nat, paths: map<nat, seq<Key>>, d: nat, k: Key, f: nat, q: seq<Key>)
    requires Rooted(tree, root, paths) && d in tree && f !in tree
    ensures d in paths
    ensures var at, tree' := paths[d] + [k], AttachedTree(tree, d, k, DirNode(f));
            Lookup(tree', root, q) ==
            if q == at then At(DirNode(f)) else if at <= q then Missing else Lookup(tree, root, q)
  {
    hide Rooted, EditedAt, Lookup, AttachedTree;
    RootFacts(tree, root, paths);
    var at, tree' := paths[d] + [k], AttachedTree(tree, d, k, DirNode(f));
    MakeEdits(tree, root, paths, d, k, f);
    if at <= q {
      NotOwnPrefix(paths[d], k);
      AtEdit(tree, root, paths, tree', at, at, d, k);
      BelowEdit(tree', root, at, q);
      if q != at {
        EmptyBelow(tree', f, q[|at|..]);
      } else {
        EmptyRest(tree', f);
      }
    } else {
      ElsewhereSeen(tree, root, paths, tree', at, at, q);
    }
  }

  lemma EmptyRest(tree: FileSystem, f: nat)
    ensures Lookup(tree, f, []) == At(DirNode(f))
  {
  }

  // ---------------------------------------------------------- remove

  lemma RemoveEdits(tree: FileSystem, root: nat, paths: map<nat, seq<Key>>, d: nat, k: Key)
    requires Rooted(tree, root, paths) && d in tree && k in tree[d]
    ensures d in paths
    ensures var at, tree' := paths[d] + [k], DetachedTree(tree, d, k);
            && EditedAt(tree, paths, tree', at, at) && root in tree' && d in tree' && k !in tree'[d]
  {
    hide Rooted, SameAt, DetachedTree;
    RootFacts(tree, root, paths);
    ChildPlace(tree, root, paths, d, k);
    OnlyThat(tree, root, paths, d, k);
    var at, tree' := paths[d] + [k], DetachedTree(tree, d, k);
    RemovedAt(tree, d, k);
    forall y, j | y in tree && y in tree' && paths[y] + [j] != at ensures SameAt(tree, tree', y, j) {
      RemovedSame(tree, d, k, y, j);
    }
  }

  lemma RemovedAt(tree: FileSystem, d: nat, k: Key)
    requires d in tree && k in tree[d] && (tree[d][k].DirNode? ==> tree[d][k].dir != d)
    ensures var tree' := DetachedTree(tree, d, k);
            && d in tree' && k !in tree'[d]
            && forall y | y in tree && !(tree[d][k].DirNode? && tree[d][k].dir == y) :: y in tree'
  {
  }

  lemma RemovedSame(tree: FileSystem, d: nat, k: Key, y: nat, j: Key)
    requires d in tree && k in tree[d] && y in tree && y in DetachedTree(tree, d, k) && !(y == d && j == k)
    ensures SameAt(tree, DetachedTree(tree, d, k), y, j)
  {
  }

  lemma OnlyThat(tree: FileSystem, root: nat, paths: map<nat, seq<Key>>, d: nat, k: Key)
    requires Rooted(tree, root, paths) && d in tree && k in tree[d]
    ensures tree[d][k].DirNode? ==> tree[d][k].dir != d && tree[d][k].dir != root
  {
    ChildPlace(tree, root, paths, d, k);
    hide ChildAt, ChildOk;
  }

  lemma RemoveSeen(tree: FileSystem, root: nat, paths: map<nat, seq<Key>>, d: nat, k: Key, q: seq<Key>)
    requires Rooted(tree, root, paths) && d in tree && k in tree[d]
    ensures d in paths
    ensures var at, tree' := paths[d] + [k], DetachedTree(tree, d, k);
            Lookup(tree', root, q) == if at <= q then Missing else Lookup(tree, root, q)
  {
    hide Rooted, EditedAt, Lookup, DetachedTree;
    RootFacts(tree, root, paths);
    var at, tree' := paths[d] + [k], DetachedTree(tree, d, k);
    RemoveEdits(tree, root, paths, d, k);
    if at <= q {
      NotOwnPrefix(paths[d], k);
      AtEdit(tree, root, paths, tree', at, at, d, k);
      BelowEdit(tree', root, at, q);
    } else {
      ElsewhereSeen(tree, root, paths, tree', at, at, q);
    }
  }

  // ---------------------------------------------------------- rename

  lemma MoveEdits(tree: FileSystem, root: nat, paths: map<nat, seq<Key>>, d: nat, k: Key, d2: nat, k2: Key)
    requires Rooted(tree, root, paths) && d in tree && k in tree[d] && d2 in tree && k2 !in tree[d2]
    ensures d in paths && d2 in paths
    ensures var a, b, tree' := paths[d] + [k], paths[d2] + [k2], MovedTree(tree, d, k, d2, k2);
            && EditedAt(tree, paths, tree', a, b) && root in tree' && d in tree' && d2 in tree'
              && tree'.Keys == tree.Keys
            && k !in tree'[d] && k2 in tree'[d2] && tree'[d2][k2] == tree[d][k]
  {
    hide Rooted, SameAt, MovedTree;
    RootFacts(tree, root, paths);
    var a, b, tree' := paths[d] + [k], paths[d2] + [k2], MovedTree(tree, d, k, d2, k2);
    MovedAt(tree, d, k, d2, k2);
    forall y, j | y in tree && y in tree' && paths[y] + [j] != a
      && paths[y] + [j] != b ensures SameAt(tree, tree', y, j) {
      MovedSame(tree, d, k, d2, k2, y, j);
    }
  }

  lemma MovedAt(tree: FileSystem, d: nat, k: Key, d2: nat, k2: Key)
    requires d in tree && k in tree[d] && d2 in tree && k2 !in tree[d2]
    ensures var tree' := MovedTree(tree, d, k, d2, k2);
            && tree'.Keys == tree.Keys && k !in tree'[d] && k2 in tree'[d2] && tree'[d2][k2] == tree[d][k]
  {
  }

  lemma MovedSame(tree: FileSystem, d: nat, k: Key, d2: nat, k2: Key, y: nat, j: Key)
    requires d in tree && k in tree[d] && d2 in tree && y in tree && !(y == d && j == k) && !(y == d2 && j == k2)
    ensures y in MovedTree(tree, d, k, d2, k2) && SameAt(tree, MovedTree(tree, d, k, d2, k2), y, j)
  {
  }

  /** Below a name there is no directory unless the name is one. */
  lemma NothingBelow(tree: FileSystem, root: nat, paths: map<nat, seq<Key>>, d: nat, k: Key, y: nat)
    requires Rooted(tree, root, paths) && d in tree && y in tree && (k in tree[d] ==> tree[d][k].FileNode?)
    ensures !(paths[d] + [k] <= paths[y])
  {
    hide Rooted, Lookup;
    RootFacts(tree, root, paths);
    HereFound(tree, root, paths, d, k);
    if paths[d] + [k] <= paths[y] {
      AbovePlace(tree, root, paths, y, paths[d] + [k]);
    }
  }

  /** The condition under which a move keeps the tree a tree. */
  ghost predicate MoveApart(tree: FileSystem, paths: map<nat, seq<Key>>, d: nat, k: Key, d2: nat)
    requires paths.Keys == tree.Keys && d in tree && k in tree[d] && d2 in tree
  {
    tree[d][k].DirNode? ==> !(paths[d] + [k] <= paths[d2])
  }

  /** A move carries the node, with everything below it, from one path to the other: whatever was
      found below the old path is found below the new one, and all else is as before. */
  lemma MoveSeen(tree: FileSystem, root: nat, paths: map<nat, seq<Key>>, d: nat, k: Key, d2: nat, k2: Key, q: seq<Key>)
    requires Rooted(tree, root, paths) && d in tree && k in tree[d] && d2 in tree && k2 !in tree[d2]
    requires paths.Keys == tree.Keys && MoveApart(tree, paths, d, k, d2)
    ensures var a, b, tree' := paths[d] + [k], paths[d2] + [k2], MovedTree(tree, d, k, d2, k2);
            Lookup(tree', root, q) ==
            if b <= q then Lookup(tree, root, a + q[|b|..])
            else if a <= q then Missing
            else Lookup(tree, root, q)
  {
    hide Rooted, EditedAt, Lookup, MovedTree;
    var a, b, tree' := paths[d] + [k], paths[d2] + [k2], MovedTree(tree, d, k, d2, k2);
    RootFacts(tree, root, paths);
    MoveEdits(tree, root, paths, d, k, d2, k2);
    NotOwnPrefix(paths[d], k);
    NotOwnPrefix(paths[d2], k2);
    if tree[d][k].FileNode? { NothingBelow(tree, root, paths, d, k, d2); }
    NothingBelow(tree, root, paths, d2, k2, d);
    if b <= q {
      MovedBelow(tree, root, paths, d, k, d2, k2, q);
    } else if a <= q {
      AtEdit(tree, root, paths, tree', a, b, d, k);
      BelowEdit(tree', root, a, q);
    } else {
      ElsewhereSeen(tree, root, paths, tree', a, b, q);
    }
  }

  lemma MovedBelow(tree: FileSystem, root: nat, paths: map<nat, seq<Key>>, d: nat, k: Key, d2: nat, k2: Key,
                   q: seq<Key>)
    requires Rooted(tree, root, paths) && d in tree && k in tree[d] && d2 in tree && k2 !in tree[d2]
             && paths.Keys == tree.Keys
    requires !(paths[d] + [k] <= paths[d2]) && !(paths[d2] + [k2] <= paths[d]) && paths[d2] + [k2] <= q
    ensures Lookup(MovedTree(tree, d, k, d2, k2), root, q) == Lookup(tree, root, paths[d] + [k] + q[|paths[d2]| + 1..])
  {
    hide Rooted, EditedAt, Lookup, MovedTree;
    var a, b, tree' := paths[d] + [k], paths[d2] + [k2], MovedTree(tree, d, k, d2, k2);
    var rest := q[|b|..];
    MoveEdits(tree, root, paths, d, k, d2, k2);
    NotOwnPrefix(paths[d2], k2);
    HereFound(tree, root, paths, d, k);
    AtEdit(tree, root, paths, tree', a, b, d2, k2);
    BelowEdit(tree', root, b, q);
    assert (a + rest)[|a|..] == rest;
    BelowEdit(tree, root, a, a + rest);
    match tree[d][k]
    case DirNode(f) =>
      ChildPlace(tree, root, paths, d, k);
      StillBelow(a, b, paths[d2], k2, rest);
      LookupElsewhere(tree, root, paths, tree', a, b, f, rest);
    case FileNode(_) =>
      assert q == b <==> a + rest == a;
  }

  lemma StillBelow(a: seq<Key>, b: seq<Key>, up: seq<Key>, k2: Key, rest: seq<Key>)
    requires b == up + [k2] && !(a <= up)
    ensures Avoids(a, rest, a) && Avoids(a, rest, b)
  {
    PrefixesNest(a, up, a + rest);
    assert up <= b;
  }

  lemma PrefixesNest(x: seq<Key>, y: seq<Key>, z: seq<Key>)
    ensures x <= z && y <= z && |x| <= |y| ==> x <= y
  {
  }

  // ------------------------------------------- moving a directory into itself

  /** A directory moved to a place below itself is gone, and everything below it: no path there
      leads anywhere any more, and all else is as before. */
  lemma PrunedSeen(tree: FileSystem, root: nat, paths: map<nat, seq<Key>>, d: nat, k: Key, q: seq<Key>)
    requires Rooted(tree, root, paths) && d in tree && k in tree[d] && d in paths && paths.Keys == tree.Keys
    ensures Lookup(PrunedTree(tree, paths, d, k), root, q) == if paths[d] + [k] <= q then Missing
            else Lookup(tree, root, q)
  {
    hide Rooted, Lookup, PrunedTree;
    RootFacts(tree, root, paths);
    assert [] + q == q;
    PrunedBelow(tree, root, paths, d, k, root, q);
  }

  lemma {:induction false} PrunedBelow(tree: FileSystem, root: nat, paths: map<nat, seq<Key>>, d: nat, k: Key, x: nat,
                                       p: seq<Key>)
    requires Rooted(tree, root, paths) && d in tree && k in tree[d] && d in paths && paths.Keys == tree.Keys
    requires x in tree && !(paths[d] + [k] <= paths[x])
    ensures Lookup(PrunedTree(tree, paths, d, k), x, p) ==
            if paths[d] + [k] <= paths[x] + p then Missing else Lookup(tree, x, p)
    decreases |p|
  {
    hide Rooted, Lookup, PrunedTree;
    var a, tree' := paths[d] + [k], PrunedTree(tree, paths, d, k);
    PrunedNames(tree, paths, d, k, x);
    LookupStep(tree, x, p);
    LookupStep(tree', x, p);
    if p == [] {
      assert paths[x] + p == paths[x];
    } else {
      var j := p[0];
      SplitHead(paths[x], p);
      SameName(tree, root, paths, d, k, x, j);
      if j in tree[x] && !(x == d && j == k) {
        if tree[x][j].DirNode? {
          ChildPlace(tree, root, paths, x, j);
          if |p| > 1 { PrunedBelow(tree, root, paths, d, k, tree[x][j].dir, p[1..]); }
        } else {
          NothingBelow(tree, root, paths, x, j, d);
          NotThroughFile(paths[d], k, paths[x], p);
        }
      }
    }
  }

  lemma PrunedNames(tree: FileSystem, paths: map<nat, seq<Key>>, d: nat, k: Key, x: nat)
    requires d in paths && paths.Keys == tree.Keys && x in tree && !(paths[d] + [k] <= paths[x])
    ensures var tree' := PrunedTree(tree, paths, d, k); x in tree' && tree'[x] == if x == d then tree[x] - {k}
            else tree[x]
  {
  }

  lemma LookupStep(tree: FileSystem, x: nat, p: seq<Key>)
    ensures p == [] ==> Lookup(tree, x, p) == At(DirNode(x))
    ensures p != [] && (x !in tree || p[0] !in tree[x]) ==> Lookup(tree, x, p) == Missing
    ensures p != [] && x in tree && p[0] in tree[x] ==>
              Lookup(tree, x, p) ==
              if |p| == 1 then At(tree[x][p[0]])
              else if tree[x][p[0]].FileNode? then NotDir
              else Lookup(tree, tree[x][p[0]].dir, p[1..])
  {
  }

  lemma SplitHead(s: seq<Key>, p: seq<Key>)
    requires p != []
    ensures s + p == s + [p[0]] + p[1..] && (|p| == 1 ==> s + p == s + [p[0]])
  {
  }

  /** Only the one name's path is the pruned one. */
  lemma SameName(tree: FileSystem, root: nat, paths: map<nat, seq<Key>>, d: nat, k: Key, x: nat, j: Key)
    requires Rooted(tree, root, paths) && d in tree && x in tree && d in paths && x in paths
    requires !(paths[d] + [k] <= paths[x])
    ensures paths[d] + [k] <= paths[x] + [j] <==> x == d && j == k
    ensures x == d && j == k ==> forall rest: seq<Key> :: paths[d] + [k] <= paths[x] + [j] + rest
  {
    if paths[d] + [k] <= paths[x] + [j] {
      assert |paths[d]| == |paths[x]|;
      assert (paths[d] + [k])[|paths[d]|] == (paths[x] + [j])[|paths[x]|];
      assert forall i | 0 <= i < |paths[d]| :: paths[d][i] == (paths[d] + [k])[i] && paths[x][i] == (paths[x] + [j])[i];
      assert paths[d] == paths[x];
    }
  }

  lemma NotThroughFile(p: seq<Key>, k: Key, s: seq<Key>, q: seq<Key>)
    requires q != [] && !(p + [k] <= s) && !(s + [q[0]] <= p) && !(p + [k] <= s + [q[0]])
    ensures !(p + [k] <= s + q)
  {
    assert (s + q)[..|s| + 1] == s + [q[0]];
    assert |s| < |p| ==> (p + [k])[..|s| + 1] == p[..|s| + 1];
    assert |p| <= |s| ==> (s + q)[..|p| + 1] == (s + [q[0]])[..|p| + 1];
  }
}
