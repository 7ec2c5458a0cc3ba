/** Path strings against the tree, and runs of operations refining a plain map from paths to
    contents. */
module FatRuns {
  import opened Bytes
  import opened FatSlots
  import opened FatNames
  import opened FatAliases
  import opened FatTables
  import opened FatBlocks
  import opened FatDirectory
  import opened FatStore
  import opened FatData
  import opened FatImage
  import opened FatLinks
  import opened FatMoves
  import opened FatRelocate
  import opened FatPrune
  import opened FatLookup
  import opened FatVolume
  import opened FatNaming
  import opened FatWrites
  import opened FatMakeDir
  import opened FatRemove
  import opened FatRename
  import opened FatTree
  import opened FatPaths
  import opened Paths

  // ------------------------------------------------ path strings and the tree

  /** The place a path string names: its components, case-folded. */
  function PlaceOf(comps: seq<Str>): (p: seq<Key>)
    ensures |p| == |comps|
  {
    seq(|comps|, i requires 0 <= i < |comps| => Fold(comps[i]))
  }

  lemma PlaceConcat(a: seq<Str>, b: seq<Str>)
    ensures PlaceOf(a + b) == PlaceOf(a) + PlaceOf(b)
  {
  }

  lemma PlaceHead(comps: seq<Str>)
    requires comps != []
    ensures PlaceOf(comps) != [] && PlaceOf(comps)[0] == Fold(comps[0]) && PlaceOf(comps)[1..] == PlaceOf(comps[1..])
  {
  }

  /** Resolving a string agrees with following its place in the tree; the only further outcome
      is a component that is no valid name. */
  lemma {:induction false} WalkMeans(img: Image, d: nat, comps: seq<Str>)
    requires ValidImage(img) && d in img.views && d in img.paths
    ensures match Walk(img, d, comps)
            case Itself(x) => x == d && comps == []
            case Named(x, k) =>
              && x in img.paths && img.paths[d] + PlaceOf(comps) == img.paths[x] + [k]
              && Lookup(Tree(img), d, PlaceOf(comps)) == At(NodeOf(img, EntryOf(img, x, k)))
            case Error(e) =>
              || (e == NotFound && Lookup(Tree(img), d, PlaceOf(comps)) == Missing)
              || (e == NotADirectory && Lookup(Tree(img), d, PlaceOf(comps)) == NotDir)
              || (e == InvalidName && exists i: nat :: i < |comps| && !ValidName(comps[i]))
    decreases |comps|
  {
    hide *;
    if comps == [] {
      WalkEmpty(img, d);
    } else {
      WalkStep(img, d, comps);
      PlaceHead(comps);
      if ValidName(comps[0]) {
        NotDotName(comps[0]);
        StepMeans(img, d, comps);
        if Listed(img, d, Fold(comps[0])) && comps[1..] != [] && IsDirectory(EntryOf(img, d, Fold(comps[0]))) {
          WalkMeans(img, FirstCluster(EntryOf(img, d, Fold(comps[0]))), comps[1..]);
          TailInvalid(comps);
        }
      }
    }
  }

  lemma TailInvalid(comps: seq<Str>)
    requires comps != []
    ensures (exists i: nat :: i < |comps[1..]| && !ValidName(comps[1..][i])) ==>
            exists i: nat :: i < |comps| && !ValidName(comps[i])
  {
    hide ValidName;
    if i: nat :| i < |comps[1..]| && !ValidName(comps[1..][i]) {
      assert comps[i + 1] == comps[1..][i];
    }
  }

  /** One name of a walk, on both sides. */
  lemma StepMeans(img: Image, d: nat, comps: seq<Str>)
    requires ValidImage(img) && d in img.views && d in img.paths && comps != [] && !IsDot(Fold(comps[0]))
    ensures var k, p := Fold(comps[0]), PlaceOf(comps);
            && (!Listed(img, d, k) ==> Lookup(Tree(img), d, p) == Missing)
            && (Listed(img, d, k) && comps[1..] == [] ==>
                  Lookup(Tree(img), d, p) == At(NodeOf(img, EntryOf(img, d, k)))
                    && img.paths[d] + p == img.paths[d] + [k])
            && (Listed(img, d, k) && comps[1..] != [] && !IsDirectory(EntryOf(img, d, k)) ==>
              Lookup(Tree(img), d, p) == NotDir)
            && (Listed(img, d, k) && IsDirectory(EntryOf(img, d, k)) ==>
                  var f := FirstCluster(EntryOf(img, d, k));
                  && f in img.views && f in img.paths
                  && (comps[1..] != [] ==> Lookup(Tree(img), d, p) == Lookup(Tree(img), f, PlaceOf(comps[1..])))
                  && img.paths[d] + p == img.paths[f] + PlaceOf(comps[1..]))
  {
    hide *;
    var k, p := Fold(comps[0]), PlaceOf(comps);
    ListedInTree(img, d, k);
    TreeRooted(img);
    RootFacts(Tree(img), img.root, img.paths);
    PlaceHead(comps);
    StepLookup(Tree(img), d, p);
    PlaceAppends(img.paths[d], p);
    assert |PlaceOf(comps[1..])| == |comps[1..]|;
    if k in Tree(img)[d] {
      ChildPlace(Tree(img), img.root, img.paths, d, k);
    }
  }

  lemma PlaceAppends(start: seq<Key>, p: seq<Key>)
    requires p != []
    ensures start + p == start + [p[0]] + p[1..] && (p[1..] == [] ==> start + p == start + [p[0]])
  {
  }

  lemma StepLookup(tree: FileSystem, d: nat, p: seq<Key>)
    requires d in tree && p != []
    ensures p[0] !in tree[d] ==> Lookup(tree, d, p) == Missing
    ensures p[0] in tree[d] && p[1..] == [] ==> Lookup(tree, d, p) == At(tree[d][p[0]])
    ensures p[0] in tree[d] && p[1..] != [] && tree[d][p[0]].FileNode? ==> Lookup(tree, d, p) == NotDir
    ensures p[0] in tree[d] && p[1..] != [] && tree[d][p[0]].DirNode? ==>
              Lookup(tree, d, p) == Lookup(tree, tree[d][p[0]].dir, p[1..])
  {
  }

  /** A located name has the place its path string spells. */
  lemma LocatedSpells(img: Image, path: Str)
    requires ValidImage(img) && Locate(img, path).In?
    ensures var l := Locate(img, path);
            && l.dir in img.views && l.dir in img.paths && l.dir in Tree(img) && LastSlash(path) >= 0
            && img.paths[l.dir] == PlaceOf(Components(ParentOf(path)))
            && img.paths[l.dir] + [Fold(l.name)] == PlaceOf(Components(path))
            && !IsDot(Fold(l.name))
  {
    LocatedPlace(img, path);
    LocatedIsSplit(img, path);
    ValidParts(img);
    PlacedPath(img, Locate(img, path).dir);
    hide *;
    SplitComponents(path);
    PlaceConcat(Components(ParentOf(path)), [NameOf(path)]);
    assert PlaceOf([NameOf(path)]) == [Fold(NameOf(path))];
  }

  lemma LocatedIsSplit(img: Image, path: Str)
    requires ValidImage(img) && Locate(img, path).In?
    ensures Splittable(path) && LastSlash(path) >= 0 && Locate(img, path).name == NameOf(path)
    ensures Locate(img, path).dir in img.paths
            && img.paths[Locate(img, path).dir] == PlaceOf(Components(ParentOf(path)))
  {
    hide Storage, AllSlots, Linked, Walk, Components, ValidName, FirstCluster, IsDirectory, IsDot, Rooted, PlaceOf,
         Tree;
    TreeRooted(img);
    RootFacts(Tree(img), img.root, img.paths);
    InTree(img, img.root);
    var comps := Components(ParentOf(path));
    WalkMeans(img, img.root, comps);
    assert [] + PlaceOf(comps) == PlaceOf(comps);
    var t := Walk(img, img.root, comps);
    if t.Named? {
      WalkIsLinked(img, img.root, comps);
      ListedInTree(img, t.dir, t.key);
      ChildPlace(Tree(img), img.root, img.paths, t.dir, t.key);
    }
  }

  lemma {:induction false} WalkValid(img: Image, d: nat, comps: seq<Str>)
    requires !Walk(img, d, comps).Error?
    ensures forall i: nat | i < |comps| :: ValidName(comps[i])
    decreases |comps|
  {
    hide ValidName, FirstCluster, IsDirectory;
    if comps != [] {
      WalkStep(img, d, comps);
      if comps[1..] != [] {
        WalkValid(img, FirstCluster(EntryOf(img, d, Fold(comps[0]))), comps[1..]);
      }
      forall i: nat | i < |comps| ensures ValidName(comps[i]) {
        if i > 0 { assert comps[i] == comps[1..][i - 1]; }
      }
    }
  }

  lemma LocatedValid(img: Image, path: Str)
    requires ValidImage(img) && Locate(img, path).In?
    ensures forall i: nat | i < |Components(path)| :: ValidName(Components(path)[i])
  {
    LocatedIsSplit(img, path);
    LocatedWalks(img, path);
    SplitComponents(path);
    hide ValidImage, ValidName, Walk, Locate, Components;
    WalkValid(img, img.root, Components(ParentOf(path)));
  }

  lemma LocatedWalks(img: Image, path: Str)
    requires Locate(img, path).In? && LastSlash(path) >= 0
    ensures !Walk(img, img.root, Components(ParentOf(path))).Error? && ValidName(NameOf(path))
  {
    hide Walk, ValidName, FirstCluster, IsDirectory, Components;
  }

  /** What was written is what a read finds: after a successful overwrite exactly the data, after
      an append the old bytes followed by the data. */
  lemma WrittenIsRead(img: Image, img': Image, path: Str, data: seq<Byte>, append: bool)
    requires ValidImage(img) && ValidImage(img') && img'.root == img.root && Locate(img, path).In?
    requires Locate(img, path).dir in Tree(img)
    requires Tree(img') == WrittenTree(Tree(img), Locate(img, path).dir, Fold(Locate(img, path).name), data, append)
    ensures var t := Walk(img', img'.root, Components(path));
            && t.Named? && !IsDirectory(EntryOf(img', t.dir, t.key))
            && t.dir in Tree(img') && t.key in Tree(img')[t.dir]
            && Tree(img')[t.dir][t.key] ==
               FileNode(PriorBytes(Lookup(Tree(img), img.root, PlaceOf(Components(path))), append) + data)
  {
    hide *;
    LocatedSpells(img, path);
    LocatedValid(img, path);
    TreeRooted(img);
    var l, at := Locate(img, path), PlaceOf(Components(path));
    WriteSeen(Tree(img), img.root, img.paths, l.dir, Fold(l.name), data, append, at);
    RootInPlace(img');
    WalkMeans(img', img'.root, Components(path));
    WalkIsLinked(img', img'.root, Components(path));
    var t := Walk(img', img'.root, Components(path));
    assert at != [];
    if t.Named? {
      NamedInViews(img', t.dir, t.key);
      ListedInTree(img', t.dir, t.key);
    }
  }

  lemma NamedInViews(img: Image, d: nat, k: Key)
    requires Listed(img, d, k)
    ensures d in img.views
  {
  }

  lemma RootInPlace(img: Image)
    requires ValidImage(img)
    ensures img.root in img.views && img.root in img.paths && img.paths[img.root] == [] && img.root in Tree(img)
  {
    TreeRooted(img);
    hide ValidImage, Rooted, Tree;
    RootFacts(Tree(img), img.root, img.paths);
    InTree(img, img.root);
  }

  // ---------------------------------------------- the string test, decided

  /** A path in normal form, as path_normalize leaves it. */
  ghost predicate NormalPath(path: Str) {
    exists stack: seq<Str> :: Canonical(stack) && path == Rendered(stack)
  }

  /** The string test never errs on the side of refusing: what it calls a descendant has the
      other path's components in front. */
  lemma TestSound(path: Str, parent: Str)
    requires DescendantOf(path, parent) && parent[|parent| - 1] != SLASH
    ensures Components(parent) <= Components(path)
  {
    hide Components;
    SplitBelow(path, parent);
    if path != parent {
      ComponentsAround(parent, path[|parent| + 1..]);
    }
  }

  lemma SplitBelow(path: Str, parent: Str)
    requires DescendantOf(path, parent) && parent[|parent| - 1] != SLASH
    ensures path == parent || (|parent| < |path| && path == parent + [SLASH] + path[|parent| + 1..])
  {
    assert path == parent + path[|parent|..];
    if path != parent {
      assert path[|parent|..] == [SLASH] + path[|parent| + 1..];
    }
  }

  /** On normal forms it misses nothing. */
  lemma {:induction false} TestComplete(s: seq<Str>, t: seq<Str>)
    requires s != [] && s <= t
    ensures DescendantOf(Rendered(t), Rendered(s))
    decreases |t|
  {
    if s != t {
      var front := t[..|t| - 1];
      assert s == front[..|s|];
      TestComplete(s, front);
      assert Rendered(t) == Rendered(front) + [SLASH] + t[|t| - 1];
    }
  }

  lemma NormalSplits(stack: seq<Str>)
    requires Canonical(stack) && stack != []
    ensures var path := Rendered(stack);
            && LastSlash(path) >= 0 && ParentOf(path) == Rendered(stack[..|stack| - 1]) && path[|path| - 1] != SLASH
  {
    var rest, c := stack[..|stack| - 1], stack[|stack| - 1];
    assert Proper(c);
    var path := Rendered(stack);
    assert path == Joined(rest) + [SLASH] + c;
    assert path[|Joined(rest)|] == SLASH;
    assert forall j | |Joined(rest)| < j < |path| :: path[j] == c[j - |Joined(rest)| - 1];
    assert LastSlash(path) == |Joined(rest)|;
    assert path[..|Joined(rest)|] == Joined(rest);
    JoinedEmpty(rest);
  }

  lemma JoinedEmpty(stack: seq<Str>)
    ensures Joined(stack) == [] <==> stack == []
  {
  }

  lemma PlaceCanonical(stack: seq<Str>)
    requires Canonical(stack)
    ensures PlaceOf(stack) == stack
  {
    forall i | 0 <= i < |stack| ensures Fold(stack[i]) == stack[i] {
      assert Proper(stack[i]);
    }
  }

  lemma NormalParts(path: Str) returns (stack: seq<Str>)
    requires NormalPath(path) && Splittable(path)
    ensures Canonical(stack) && stack != [] && path == Rendered(stack)
    ensures Components(path) == stack && PlaceOf(stack) == stack && path[|path| - 1] != SLASH
    ensures LastSlash(path) >= 0 && ParentOf(path) == Rendered(stack[..|stack| - 1])
    ensures Components(ParentOf(path)) == stack[..|stack| - 1] && PlaceOf(stack[..|stack| - 1]) == stack[..|stack| - 1]
  {
    stack :| Canonical(stack) && path == Rendered(stack);
    assert stack != [];
    RenderedComponents(stack);
    RenderedComponents(stack[..|stack| - 1]);
    PlaceCanonical(stack);
    PlaceCanonical(stack[..|stack| - 1]);
    NormalSplits(stack);
  }

  /** Whatever the paths look like, the test refuses only moves into the moved directory. */
  lemma TestRefusesRightly(img: Image, oldPath: Str, newPath: Str)
    requires ValidImage(img) && Locate(img, oldPath).In? && Locate(img, newPath).In? && LastSlash(newPath) >= 0
    requires var l := Locate(img, oldPath);
             Listed(img, l.dir, Fold(l.name))
             && IsDirectory(EntryOf(img, l.dir, Fold(l.name)))
    requires DescendantOf(ParentOf(newPath), oldPath)
    ensures IntoItself(img, Locate(img, oldPath).dir, Fold(Locate(img, oldPath).name), Locate(img, newPath).dir)
  {
    hide *;
    LocatedSpells(img, oldPath);
    LocatedSpells(img, newPath);
    LocatedIsSplit(img, oldPath);
    LastOfSplit(oldPath);
    TestSound(ParentOf(newPath), oldPath);
    var a, b := Components(oldPath), Components(ParentOf(newPath));
    assert b == a + b[|a|..];
    PlaceConcat(a, b[|a|..]);
    ItselfMeans(img, Locate(img, oldPath).dir, Fold(Locate(img, oldPath).name), Locate(img, newPath).dir);
  }

  lemma LastOfSplit(path: Str)
    requires Splittable(path)
    ensures |path| > 0 && path[|path| - 1] != SLASH
  {
  }

  lemma ItselfMeans(img: Image, d: nat, k: Key, d2: nat)
    requires Listed(img, d, k) && d in img.paths && d2 in img.paths
    ensures IntoItself(img, d, k, d2) <==> IsDirectory(EntryOf(img, d, k)) && img.paths[d] + [k] <= img.paths[d2]
  {
    hide IsDirectory;
  }

  /** On normal paths the string test decides exactly whether the target lies in the moved
      directory. */
  lemma TestExact(img: Image, oldPath: Str, newPath: Str)
    requires ValidImage(img) && Locate(img, oldPath).In? && Locate(img, newPath).In? && NormalPath(oldPath)
             && NormalPath(newPath)
    requires var l := Locate(img, oldPath);
             Listed(img, l.dir, Fold(l.name))
             && IsDirectory(EntryOf(img, l.dir, Fold(l.name)))
    ensures LastSlash(newPath) >= 0
    ensures DescendantOf(ParentOf(newPath), oldPath) <==>
            IntoItself(img, Locate(img, oldPath).dir, Fold(Locate(img, oldPath).name), Locate(img, newPath).dir)
  {
    LocatedSpells(img, oldPath);
    LocatedSpells(img, newPath);
    LocatedIsSplit(img, oldPath);
    LocatedIsSplit(img, newPath);
    hide ValidImage, Locate, DescendantOf, Components, Tree, FirstCluster, IsDirectory, NormalPath, PlaceOf, Canonical;
    var s := NormalParts(oldPath);
    var t := NormalParts(newPath);
    if DescendantOf(ParentOf(newPath), oldPath) {
      TestRefusesRightly(img, oldPath, newPath);
    }
    if s <= t[..|t| - 1] {
      TestComplete(s, t[..|t| - 1]);
    }
  }

  /** Without normal forms it can miss: "/a" and "/A/b" differ as strings, not as places. */
  lemma TestMisses()
    ensures var oldPath, newPath := [0x2F, 0x61], [0x2F, 0x41, 0x2F, 0x62];
            && Splittable(oldPath) && Splittable(newPath) && LastSlash(newPath) >= 0
            && !DescendantOf(ParentOf(newPath), oldPath)
            && PlaceOf(Components(oldPath)) <= PlaceOf(Components(ParentOf(newPath)))
  {
    var oldPath: Str, newPath: Str := [0x2F, 0x61], [0x2F, 0x41, 0x2F, 0x62];
    assert LastSlash(newPath) == 2;
    assert ParentOf(newPath) == [0x2F, 0x41];
    SingleComponent([0x61]);
    SingleComponent([0x41]);
    assert oldPath[1..] == [0x61] && ParentOf(newPath)[1..] == [0x41];
    assert Components(oldPath) == [[0x61]] && Components(ParentOf(newPath)) == [[0x41]];
    assert Fold([0x61]) == Fold([0x41]);
  }

  /** What that costs: on any volume with a directory A in the root and room for a name b in it,
      renaming "/a" to "/A/b" returns OK, and moves A into itself. */
  lemma MissedMove(img: Image, f: nat)
    requires ValidImage(img) && Listed(img, img.root, [0x41]) && IsDirectory(EntryOf(img, img.root, [0x41]))
    requires f == FirstCluster(EntryOf(img, img.root, [0x41])) && f in img.views && !Listed(img, f, [0x42])
    requires !NoRoomToMove(img, img.root, [0x41], f, [0x62])
    ensures RenameResult(img, [0x2F, 0x61], [0x2F, 0x41, 0x2F, 0x62]) == Ok
    ensures Locate(img, [0x2F, 0x61]) == In(img.root, [0x61]) && Locate(img, [0x2F, 0x41, 0x2F, 0x62]) == In(f, [0x62])
    ensures IntoItself(img, img.root, [0x41], f)
  {
    hide *;
    var oldPath: Str, newPath: Str := [0x2F, 0x61], [0x2F, 0x41, 0x2F, 0x62];
    TestMisses();
    Letters();
    LocatesA(img);
    LocatesB(img, f);
    RenamePaths(img, oldPath, newPath);
    RenameAtCases(img, img.root, [0x61], f, [0x62], LastSlash(newPath) >= 0
      && DescendantOf(ParentOf(newPath), oldPath));
    APlace(img, f);
    ItselfMeans(img, img.root, [0x41], f);
  }

  lemma Letters()
    ensures Fold([0x61]) == [0x41] && Fold([0x41]) == [0x41] && Fold([0x62]) == [0x42]
    ensures ValidName([0x61]) && ValidName([0x41]) && ValidName([0x62]) && !IsDot([0x41])
  {
  }

  lemma LocatesA(img: Image)
    ensures Locate(img, [0x2F, 0x61]) == In(img.root, [0x61])
  {
    Letters();
    var path: Str := [0x2F, 0x61];
    assert LastSlash(path) == 0;
    assert NameOf(path) == [0x61] && [SLASH][1..] == [];
    assert Components([SLASH]) == Components([]) == [];
  }

  lemma LocatesB(img: Image, f: nat)
    requires Listed(img, img.root, [0x41]) && IsDirectory(EntryOf(img, img.root, [0x41]))
             && f == FirstCluster(EntryOf(img, img.root, [0x41]))
    ensures Locate(img, [0x2F, 0x41, 0x2F, 0x62]) == In(f, [0x62])
  {
    Letters();
    var path: Str := [0x2F, 0x41, 0x2F, 0x62];
    assert LastSlash(path) == 2;
    assert NameOf(path) == [0x62] && ParentOf(path) == [0x2F, 0x41];
    SingleComponent([0x41]);
    assert ParentOf(path)[1..] == [0x41];
    assert Components(ParentOf(path)) == [[0x41]];
    hide FirstCluster, IsDirectory, Listed, ValidName, Fold, Components;
  }

  lemma APlace(img: Image, f: nat)
    requires ValidImage(img) && Listed(img, img.root, [0x41]) && !IsDot([0x41])
             && f == FirstCluster(EntryOf(img, img.root, [0x41])) && f in img.views
    ensures img.root in img.paths && f in img.paths && img.paths[img.root] == [] && img.paths[f] == [[0x41]]
  {
    hide *;
    ValidParts(img);
    RootInPlace(img);
    EntryKind(img, img.root, [0x41]);
    ParentPlaced(img, f);
    RegisteredParts(img);
    ChildOfRoot(img, f);
  }

  lemma ChildOfRoot(img: Image, f: nat)
    requires f in img.views && PlaceOk(img, f) && f in img.owner && f != img.root && 0 !in img.chains
    requires img.owner[f] == Owner(img.root, [0x41]) && img.root in img.paths && img.paths[img.root] == []
    ensures f in img.paths && img.paths[f] == [[0x41]]
  {
    assert [] + [[0x41]] == [[0x41]];
  }

  // -------------------------------------------------------------- runs

  datatype Op =
    | Write(path: Str, data: seq<Byte>, append: bool)
    | Make(path: Str)
    | Erase(path: Str)
    | Move(from: Str, to: Str)

  /** The simple file system: what is seen at path `q` after an operation that returned `r`, told
      from what was seen before. */
  ghost function Expected(tree: FileSystem, root: nat, op: Op, r: Result, q: seq<Key>): Seen {
    if r != Ok then SeenAt(tree, root, q)
    else match op
      case Write(path, data, append) =>
        var at := PlaceOf(Components(path));
        if q == at then
          File((match SeenAt(tree, root, at) case File(bytes) => if append then bytes else [] case _ => []) + data)
        else if at <= q then ThroughFile
        else SeenAt(tree, root, q)
      case Make(path) =>
        var at := PlaceOf(Components(path));
        if q == at then Directory else if at <= q then Nothing else SeenAt(tree, root, q)
      case Erase(path) =>
        if PlaceOf(Components(path)) <= q then Nothing else SeenAt(tree, root, q)
      case Move(from, to) =>
        var a, b := PlaceOf(Components(from)), PlaceOf(Components(to));
        if from == to then SeenAt(tree, root, q)
        else if a <= b then (if a <= q then Nothing else SeenAt(tree, root, q))   // into itself: lost
        else if b <= q then SeenAt(tree, root, a + q[|b|..])
        else if a <= q then Nothing
        else SeenAt(tree, root, q)
  }

  /** One operation did on every path what the simple file system does. */
  ghost predicate Stepped(tree: FileSystem, root: nat, tree': FileSystem, op: Op, r: Result) {
    forall q :: SeenAt(tree', root, q) == Expected(tree, root, op, r, q)
  }

  lemma WriteSteps(img: Image, path: Str, data: seq<Byte>, append: bool)
    requires ValidImage(img) && Locate(img, path).In? && Locate(img, path).dir in Tree(img)
    ensures var l := Locate(img, path);
            Stepped(Tree(img), img.root, WrittenTree(Tree(img), l.dir, Fold(l.name), data, append),
              Write(path, data, append), Ok)
  {
    hide *;
    LocatedSpells(img, path);
    TreeRooted(img);
    var l := Locate(img, path);
    var tree := Tree(img);
    var tree' := WrittenTree(tree, l.dir, Fold(l.name), data, append);
    forall q ensures SeenAt(tree', img.root, q) == Expected(tree, img.root, Write(path, data, append), Ok, q) {
      WriteSeen(tree, img.root, img.paths, l.dir, Fold(l.name), data, append, q);
      WriteExpected(tree, img.root, tree', path, data, append, q);
    }
    SteppedFrom(tree, img.root, tree', Write(path, data, append), Ok);
  }

  lemma SteppedFrom(tree: FileSystem, root: nat, tree': FileSystem, op: Op, r: Result)
    requires forall q :: SeenAt(tree', root, q) == Expected(tree, root, op, r, q)
    ensures Stepped(tree, root, tree', op, r)
  {
  }

  lemma WriteExpected(tree: FileSystem, root: nat, tree': FileSystem, path: Str, data: seq<Byte>, append: bool,
                      q: seq<Key>)
    requires var at := PlaceOf(Components(path));
             Lookup(tree', root, q) ==
             if q == at then At(FileNode(PriorBytes(Lookup(tree, root, at), append) + data))
             else if at <= q then NotDir
             else Lookup(tree, root, q)
    ensures SeenAt(tree', root, q) == Expected(tree, root, Write(path, data, append), Ok, q)
  {
    hide Lookup, Components, PlaceOf;
  }

  lemma MakeSteps(img: Image, path: Str, made: nat)
    requires ValidImage(img) && Locate(img, path).In? && Locate(img, path).dir in Tree(img) && made !in Tree(img)
    ensures var l := Locate(img, path);
            Stepped(Tree(img), img.root, AttachedTree(Tree(img), l.dir, Fold(l.name), DirNode(made)), Make(path), Ok)
  {
    hide *;
    LocatedSpells(img, path);
    TreeRooted(img);
    var l := Locate(img, path);
    var tree := Tree(img);
    var tree' := AttachedTree(tree, l.dir, Fold(l.name), DirNode(made));
    forall q ensures SeenAt(tree', img.root, q) == Expected(tree, img.root, Make(path), Ok, q) {
      MakeSeen(tree, img.root, img.paths, l.dir, Fold(l.name), made, q);
      MakeExpected(tree, img.root, tree', path, made, q);
    }
    SteppedFrom(tree, img.root, tree', Make(path), Ok);
  }

  lemma MakeExpected(tree: FileSystem, root: nat, tree': FileSystem, path: Str, made: nat, q: seq<Key>)
    requires var at := PlaceOf(Components(path));
             Lookup(tree', root, q) == if q == at then At(DirNode(made)) else if at <= q then Missing
               else Lookup(tree, root, q)
    ensures SeenAt(tree', root, q) == Expected(tree, root, Make(path), Ok, q)
  {
    hide Lookup, Components, PlaceOf;
  }

  lemma EraseSteps(img: Image, path: Str)
    requires ValidImage(img) && Locate(img, path).In? && Locate(img, path).dir in Tree(img)
    requires Fold(Locate(img, path).name) in Tree(img)[Locate(img, path).dir]
    ensures var l := Locate(img, path);
            Stepped(Tree(img), img.root, DetachedTree(Tree(img), l.dir, Fold(l.name)), Erase(path), Ok)
  {
    hide *;
    LocatedSpells(img, path);
    TreeRooted(img);
    var l := Locate(img, path);
    var tree := Tree(img);
    var tree' := DetachedTree(tree, l.dir, Fold(l.name));
    forall q ensures SeenAt(tree', img.root, q) == Expected(tree, img.root, Erase(path), Ok, q) {
      RemoveSeen(tree, img.root, img.paths, l.dir, Fold(l.name), q);
      EraseExpected(tree, img.root, tree', path, q);
    }
    SteppedFrom(tree, img.root, tree', Erase(path), Ok);
  }

  lemma EraseExpected(tree: FileSystem, root: nat, tree': FileSystem, path: Str, q: seq<Key>)
    requires Lookup(tree', root, q) == if PlaceOf(Components(path)) <= q then Missing else Lookup(tree, root, q)
    ensures SeenAt(tree', root, q) == Expected(tree, root, Erase(path), Ok, q)
  {
    hide Lookup, Components, PlaceOf;
  }

  lemma MoveSteps(img: Image, from: Str, to: Str)
    requires ValidImage(img) && Locate(img, from).In? && Locate(img, to).In? && from != to
    requires var l, l2 := Locate(img, from), Locate(img, to);
             && l.dir in Tree(img) && l2.dir in Tree(img) && Fold(l.name) in Tree(img)[l.dir]
               && Fold(l2.name) !in Tree(img)[l2.dir]
             && l.dir in img.paths && img.paths.Keys == Tree(img).Keys
    ensures var l, l2 := Locate(img, from), Locate(img, to);
            Stepped(Tree(img), img.root, MoveOutcome(img, l.dir, Fold(l.name), l2.dir, Fold(l2.name)), Move(from, to),
              Ok)
  {
    hide *;
    LocatedSpells(img, from);
    LocatedSpells(img, to);
    TreeRooted(img);
    var l, l2 := Locate(img, from), Locate(img, to);
    var tree := Tree(img);
    var tree' := MoveOutcome(img, l.dir, Fold(l.name), l2.dir, Fold(l2.name));
    OutcomeIs(img, l.dir, Fold(l.name), l2.dir, Fold(l2.name));
    RootFacts(tree, img.root, img.paths);
    ApartFrom(img, l.dir, Fold(l.name), l2.dir);
    ItselfSpelled(img, l.dir, Fold(l.name), l2.dir, Fold(l2.name));
    forall q ensures SeenAt(tree', img.root, q) == Expected(tree, img.root, Move(from, to), Ok, q) {
      if IntoItself(img, l.dir, Fold(l.name), l2.dir) {
        PrunedSeen(tree, img.root, img.paths, l.dir, Fold(l.name), q);
      } else {
        MoveSeen(tree, img.root, img.paths, l.dir, Fold(l.name), l2.dir, Fold(l2.name), q);
      }
      MoveExpected(tree, img.root, tree', from, to, q);
    }
    SteppedFrom(tree, img.root, tree', Move(from, to), Ok);
  }

  lemma MoveExpected(tree: FileSystem, root: nat, tree': FileSystem, from: Str, to: Str, q: seq<Key>)
    requires from != to
    requires var a, b := PlaceOf(Components(from)), PlaceOf(Components(to));
             Lookup(tree', root, q) ==
             if a <= b then (if a <= q then Missing else Lookup(tree, root, q))
             else if b <= q then Lookup(tree, root, a + q[|b|..]) else if a <= q then Missing else Lookup(tree, root, q)
    ensures SeenAt(tree', root, q) == Expected(tree, root, Move(from, to), Ok, q)
  {
    hide Lookup, Components, PlaceOf;
  }

  /** A directory moves into itself exactly when its old place is in front of its new one. */
  lemma ItselfSpelled(img: Image, d: nat, k: Key, d2: nat, k2: Key)
    requires ValidImage(img) && d in Tree(img) && k in Tree(img)[d] && d2 in Tree(img) && k2 !in Tree(img)[d2]
    requires d in img.paths && d2 in img.paths && img.paths.Keys == Tree(img).Keys
    ensures IntoItself(img, d, k, d2) <==> img.paths[d] + [k] <= img.paths[d2] + [k2]
  {
    hide *;
    TreeRooted(img);
    InTree(img, d);
    TreeKeyListed(img, d, k);
    ListedInTree(img, d, k);
    ItselfMeans(img, d, k, d2);
    if Tree(img)[d][k].FileNode? { NothingBelow(Tree(img), img.root, img.paths, d, k, d2); }
    Extends(img.paths[d], k, img.paths[d2], k2);
    Longer(img.paths[d] + [k], img.paths[d2], k2);
    if img.paths[d] == img.paths[d2] { OnePlaceEach(img, d, d2); }
  }

  lemma Longer(a: seq<Key>, p: seq<Key>, k: Key)
    ensures a <= p ==> a <= p + [k]
  {
  }

  lemma OnePlaceEach(img: Image, d: nat, d2: nat)
    requires ValidImage(img) && d in Tree(img) && d2 in Tree(img) && d in img.paths && d2 in img.paths
             && img.paths[d] == img.paths[d2]
    ensures d == d2
  {
    hide *;
    ValidParts(img);
    InTree(img, d);
    InTree(img, d2);
    PathInjective(img, d, d2);
  }

  /** The two wordings of "not into itself" agree. */
  lemma ApartFrom(img: Image, d: nat, k: Key, d2: nat)
    requires ValidImage(img) && d in Tree(img) && k in Tree(img)[d] && d2 in Tree(img)
             && img.paths.Keys == Tree(img).Keys
    ensures MoveApart(Tree(img), img.paths, d, k, d2) <==> !IntoItself(img, d, k, d2)
  {
    InTree(img, d);
    TreeKeyListed(img, d, k);
    ListedInTree(img, d, k);
    hide ValidImage, Tree, NodeOf, FirstCluster, IsDirectory, IsDot;
  }

  lemma TreeKeyListed(img: Image, d: nat, k: Key)
    requires d in Tree(img) && k in Tree(img)[d]
    ensures Listed(img, d, k) && !IsDot(k)
  {
    hide NodeOf, IsDot;
  }

  lemma NothingSteps(tree: FileSystem, root: nat, op: Op, r: Result)
    requires r != Ok || (op.Move? && op.from == op.to)
    ensures Stepped(tree, root, tree, op, r)
  {
    hide Lookup;
  }

  /** Directories far enough from the number of names the alias digits can tell apart. */
  ghost predicate Roomy(tree: FileSystem, n: nat) {
    forall d | d in tree :: |tree[d]| + n + 5 < ALIAS_LIMIT
  }

  lemma MapWithout<K, V>(m: map<K, V>, k: K)
    ensures |m - {k}| <= |m|
  {
    SubsetSize((m - {k}).Keys, m.Keys);
  }

  lemma MapWith<K, V>(m: map<K, V>, k: K, v: V)
    ensures |m[k := v]| <= |m| + 1
  {
    assert m[k := v].Keys == m.Keys + {k};
  }

  lemma ListingSize(img: Image, d: nat)
    requires d in img.views
    ensures d in Tree(img) && |img.views[d]| <= |Tree(img)[d]| + 2
  {
    hide NodeOf;
    var named := Tree(img)[d].Keys;
    assert img.views[d].Keys <= named + {[DOT], [DOT, DOT]};
    SubsetSize(img.views[d].Keys, named + {[DOT], [DOT, DOT]});
    assert |named + {[DOT], [DOT, DOT]}| <= |named| + 2 by {
      assert named + {[DOT], [DOT, DOT]} == named + {[DOT]} + {[DOT, DOT]};
    }
  }

  lemma RoomyIsSmall(vol: Volume, n: nat)
    requires vol.Valid() && Roomy(Tree(vol.Now()), n)
    ensures vol.SmallDirectories()
  {
    hide ValidImage, Tree;
    forall d | d in vol.views ensures |vol.views[d]| + 3 < ALIAS_LIMIT {
      ListingSize(vol.Now(), d);
    }
  }

  /** A step that adds at most one name to a listing uses up at most one place. */
  ghost predicate OneMore(tree: FileSystem, tree': FileSystem) {
    forall d | d in tree' :: |tree'[d]| <= (if d in tree then |tree[d]| else 0) + 1 && (d in tree || tree'[d] == map[])
  }

  lemma RoomyAfter(tree: FileSystem, tree': FileSystem)
    requires OneMore(tree, tree')
    ensures forall n: nat :: Roomy(tree, n + 1) && tree != map[] ==> Roomy(tree', n)
  {
    forall n: nat | Roomy(tree, n + 1) && tree != map[] ensures Roomy(tree', n) {
      var x :| x in tree;
      assert |tree[x]| + (n + 1) + 5 < ALIAS_LIMIT;
    }
  }

  lemma OneMoreWrite(tree: FileSystem, d: nat, k: Key, data: seq<Byte>, append: bool)
    requires d in tree
    ensures OneMore(tree, WrittenTree(tree, d, k, data, append))
  {
    MapWith(tree[d], k, WrittenTree(tree, d, k, data, append)[d][k]);
  }

  lemma OneMoreMake(tree: FileSystem, d: nat, k: Key, f: nat)
    requires d in tree && f !in tree
    ensures OneMore(tree, AttachedTree(tree, d, k, DirNode(f)))
  {
    MapWith(tree[d], k, DirNode(f));
  }

  lemma OneMoreErase(tree: FileSystem, d: nat, k: Key)
    requires d in tree && k in tree[d]
    ensures OneMore(tree, DetachedTree(tree, d, k))
  {
    MapWithout(tree[d], k);
  }

  lemma OneMoreMove(tree: FileSystem, d: nat, k: Key, d2: nat, k2: Key)
    requires d in tree && d2 in tree && k in tree[d]
    ensures OneMore(tree, MovedTree(tree, d, k, d2, k2))
  {
    MapWithout(tree[d], k);
    var without := tree[d := tree[d] - {k}];
    MapWith(without[d2], k2, tree[d][k]);
  }

  lemma OneMorePruned(tree: FileSystem, paths: map<nat, seq<Key>>, d: nat, k: Key)
    requires d in paths && paths.Keys == tree.Keys && d in tree
    ensures OneMore(tree, PrunedTree(tree, paths, d, k))
  {
    MapWithout(tree[d], k);
  }

  lemma OneMoreMoved(img: Image, d: nat, k: Key, d2: nat, k2: Key)
    requires d in img.paths && img.paths.Keys == Tree(img).Keys && d in Tree(img) && d2 in Tree(img)
             && k in Tree(img)[d]
    ensures OneMore(Tree(img), MoveOutcome(img, d, k, d2, k2))
  {
    hide *;
    OutcomeIs(img, d, k, d2, k2);
    OneMorePruned(Tree(img), img.paths, d, k);
    OneMoreMove(Tree(img), d, k, d2, k2);
  }

  lemma OneMoreSame(tree: FileSystem)
    ensures OneMore(tree, tree)
  {
  }

  const MAX_WRITE := 0x7FFF_EFFF   // a file holds at most 2^31 bytes, so this much more never wraps

  /** Writes of representable size, and paths whose parents fit the kernel's buffers. */
  predicate Allowed(op: Op) {
    match op
    case Write(path, data, _) => |data| <= MAX_WRITE && ParentFits(path)
    case Make(path) => ParentFits(path)
    case Erase(path) => ParentFits(path)
    case Move(from, to) => from == to || (ParentFits(from) && ParentFits(to))
  }

  function Below(n: nat): (s: set<nat>)
    ensures forall c: nat :: c in s <==> c < n
  {
    if n == 0 then {} else Below(n - 1) + {n - 1}
  }

  lemma {:induction false} BelowSize(n: nat)
    ensures |Below(n)| == n
  {
    if n > 0 {
      BelowSize(n - 1);
      assert Below(n) == Below(n - 1) + {n - 1};
    }
  }

  /** A chain visits each cluster of the table at most once. */
  lemma ChainFits(fat: Table, cs: seq<nat>)
    requires |fat| <= MAX_CLUSTERS && IsChain(fat, cs)
    ensures |cs| <= |fat|
  {
    ChainAcyclic(fat, cs);
    SetOfSize(cs);
    forall c | c in cs ensures c < |fat| {
      ChainInUse(fat, cs, c);
    }
    BelowSize(|fat|);
    SubsetSize(SetOf(cs), Below(|fat|));
  }

  lemma EntryBound(img: Image, d: nat, k: Key)
    requires ValidImage(img) && img.size <= MAX_CLUSTER_SIZE && Listed(img, d, k) && !IsDot(k)
             && !IsDirectory(EntryOf(img, d, k))
    ensures Size(EntryOf(img, d, k)) <= 0x8000_0000
  {
    FileBytes(img, d, k);
    ValidParts(img);
    hide ValidImage, Linked, AllSlots, FirstCluster, Size, IsDirectory, IsDot, IsChain, NodeOf;
    var f := FirstCluster(EntryOf(img, d, k));
    if f != 0 {
      BytesLength(img, f);
      assert ChainAt(img.fat, img.chains, f);
      ChainFits(img.fat, img.chains[f]);
      Product(|img.chains[f]|, MAX_CLUSTERS, img.size);
      Product(img.size, MAX_CLUSTER_SIZE, MAX_CLUSTERS);
    }
  }

  /** No file exceeds what the largest volume can hold. */
  lemma FileBound(vol: Volume, path: Str, append: bool)
    requires vol.Valid()
    ensures PriorSize(vol.Now(), path, append) + MAX_WRITE <= MAX_FILE_SIZE
  {
    var img := vol.Now();
    LocatedPlace(img, path);
    hide Locate, ValidImage, FirstCluster, Size, IsDirectory, IsDot, Tree, ValidName;
    if Locate(img, path).In? && Front(img, Locate(img, path).dir, Fold(Locate(img, path).name), append) > 0 {
      EntryBound(img, Locate(img, path).dir, Fold(Locate(img, path).name));
    }
  }

  lemma RootOf(vol: Volume)
    requires vol.Valid()
    ensures vol.Now().root == vol.root && Tree(vol.Now()) != map[]
  {
    hide ValidImage;
    RootInPlace(vol.Now());
  }

  lemma AllowedParts(op: Op)
    requires Allowed(op)
    ensures op.Write? ==> |op.data| <= MAX_WRITE && ParentFits(op.path)
    ensures (op.Make? || op.Erase? ==> ParentFits(op.path))
    ensures op.Move? && op.from != op.to ==> ParentFits(op.from) && ParentFits(op.to)
  {
    hide ParentFits;
  }

  /** What a rename that the kernel carries out has found. */
  lemma RenameCheck(img: Image, from: Str, to: Str)
    requires ValidImage(img)
    ensures RenameResult(img, from, to) == Ok && from != to ==>
              var l, l2 := Locate(img, from), Locate(img, to);
              && l.In? && l2.In? && l2.dir in Tree(img) && Fold(l2.name) !in Tree(img)[l2.dir]
                && Listed(img, l.dir, Fold(l.name))
              && (IsDirectory(EntryOf(img, l.dir, Fold(l.name))) ==>
                !(LastSlash(to) >= 0 && DescendantOf(ParentOf(to), from)))
  {
    hide *;
    if RenameResult(img, from, to) == Ok && from != to {
      RenamePaths(img, from, to);
      var l, l2 := Locate(img, from), Locate(img, to);
      NotDotName(l2.name);
      RenameAtCases(img, l.dir, l.name, l2.dir, l2.name, LastSlash(to) >= 0 && DescendantOf(ParentOf(to), from));
      ListedInTree(img, l2.dir, Fold(l2.name));
    }
  }

  /** A rename between normal paths that the kernel carries out never moves a directory into itself:
      nothing is lost. */
  lemma NormalNeverLoses(img: Image, from: Str, to: Str)
    requires ValidImage(img) && NormalPath(from) && NormalPath(to)
    ensures RenameResult(img, from, to) == Ok && from != to ==>
              var l, l2 := Locate(img, from), Locate(img, to);
              l.In? && l2.In? && !IntoItself(img, l.dir, Fold(l.name), l2.dir)
  {
    hide *;
    RenameCheck(img, from, to);
    if RenameResult(img, from, to) == Ok && from != to {
      var l, l2 := Locate(img, from), Locate(img, to);
      FileNotInto(img, l.dir, Fold(l.name), l2.dir);
      if IsDirectory(EntryOf(img, l.dir, Fold(l.name))) {
        TestExact(img, from, to);
      }
    }
  }

  lemma FileNotInto(img: Image, d: nat, k: Key, d2: nat)
    ensures IntoItself(img, d, k, d2) ==> Listed(img, d, k) && IsDirectory(EntryOf(img, d, k))
  {
  }

  /** What the kernel answers. */
  ghost function ResultOf(img: Image, op: Op): Result
    requires ValidImage(img)
  {
    match op
    case Write(path, data, append) => WriteResult(img, path, |data|, append)
    case Make(path) => MakeDirResult(img, path)
    case Erase(path) => RemoveResult(img, path)
    case Move(from, to) => RenameResult(img, from, to)
  }

  lemma ResultCases(img: Image, op: Op)
    requires ValidImage(img)
    ensures op.Write? ==> ResultOf(img, op) == WriteResult(img, op.path, |op.data|, op.append)
    ensures op.Make? ==> ResultOf(img, op) == MakeDirResult(img, op.path)
    ensures op.Erase? ==> ResultOf(img, op) == RemoveResult(img, op.path)
    ensures op.Move? ==> ResultOf(img, op) == RenameResult(img, op.from, op.to)
  {
    hide ValidImage, WriteResult, MakeDirResult, RemoveResult, RenameResult;
  }

  /** How many clusters are free after an operation, whether it succeeds or not. */
  ghost function FreeAfter(img: Image, op: Op): int
    requires ValidImage(img)
  {
    var free := |FreeClusters(img.fat)|;
    match op
    case Write(path, data, append) =>
      LocatedPlace(img, path);
      (match Locate(img, path)
       case Fails(_) => free
       case In(d, name) => FreeAfterWrite(img, d, name, |data|, append))
    case Make(path) =>
      LocatedPlace(img, path);
      (match Locate(img, path)
       case Fails(_) => free
       case In(d, name) => FreeAfterMake(img, d, name))
    case Erase(path) =>
      if RemoveResult(img, path) != Ok then free
      else (match Locate(img, path) case Fails(_) => free case In(d, name) => free + |HeldBy(img, d, Fold(name))|)
    case Move(from, to) =>
      if from == to || RenameResult(img, from, to) != Ok then free
      else
        RenameCheck(img, from, to);
        LocatedPlace(img, to);
        var l, l2 := Locate(img, from), Locate(img, to);
        free - RenameGrowth(img, l.dir, Fold(l.name), l2.dir, l2.name)
  }

  ghost function FreeAfterWrite(img: Image, d: nat, name: Str, length: nat, append: bool): int
    requires img.size > 0 && d in img.views && d in img.chains
  {
    var k, free := Fold(name), |FreeClusters(img.fat)|;
    match WriteAtResult(img, d, name, length, append)
    case Ok => free + |HeldBy(img, d, k)| - HeldAfter(img, d, k, length, append) - DirectoryGrowth(img, d, name)
    case NoSpace => if HeldBy(img, d, k) == [] && free < DataNeed(img, d, k, length, append) then free else 0
    case _ => free
  }

  ghost function FreeAfterMake(img: Image, d: nat, name: Str): int
    requires d in img.views && d in img.chains
  {
    var free := |FreeClusters(img.fat)|;
    match MakeDirAtResult(img, d, name)
    case Ok => free - 1 - Growth(img, d, SlotsNeeded(img, d, name))
    case NoSpace => 0
    case _ => free
  }

  /** A write accounts for every cluster. */
  lemma WriteFree(img: Image, img': Image, d: nat, name: Str, length: nat, append: bool)
    requires img.size > 0 && d in img.views && d in img.chains
    requires WriteAccounts(img, img', d, name, length, append, WriteAtResult(img, d, name, length, append))
    ensures |FreeClusters(img'.fat)| == FreeAfterWrite(img, d, name, length, append)
  {
    hide FreeClusters, WriteAtResult, HeldBy, HeldAfter, DataNeed, DirectoryGrowth, Fold, Gained, SetOf;
  }

  lemma MakeFree(img: Image, img': Image, d: nat, name: Str, made: nat)
    requires d in img.views && d in img.chains
    requires MakeAccounts(img, img', d, name, made, MakeDirAtResult(img, d, name))
    ensures |FreeClusters(img'.fat)| == FreeAfterMake(img, d, name)
  {
    NoneHeldAt(img, d, name);
    hide FreeClusters, MakeDirAtResult, HeldBy, SlotsNeeded, Growth, Fold, Gained, SetOf;
  }

  lemma NoneHeldAt(img: Image, d: nat, name: Str)
    requires d in img.views && d in img.chains
    ensures MakeDirAtResult(img, d, name) == Ok ==> HeldBy(img, d, Fold(name)) == []
  {
    hide HasRun, SlotsOf, SlotsNeeded, FreeClusters;
  }

  /** A removed name's clusters are as many as its chain is long. */
  lemma EraseFree(img: Image, d: nat, k: Key, free': set<nat>)
    requires ValidImage(img) && Listed(img, d, k)
    requires free' == FreeClusters(img.fat) + SetOf(OldChain(img.chains, FirstCluster(EntryOf(img, d, k))))
    ensures |free'| == |FreeClusters(img.fat)| + |HeldBy(img, d, k)|
  {
    ValidParts(img);
    var cs := OldChain(img.chains, FirstCluster(EntryOf(img, d, k)));
    HeldIsChain(img, FirstCluster(EntryOf(img, d, k)));
    StorageSize(img);
    if cs != [] { ChainAcyclic(img.fat, cs); }
    SetOfSize(cs);
    hide ValidImage, Storage, Linked, AllSlots, FreeClusters, FirstCluster, IsChain, IsFree;
    forall c | c in cs ensures c !in FreeClusters(img.fat) {
      ChainInUse(img.fat, cs, c);
      FreeIn(img.fat, c);
    }
    assert SetOf(cs) !! FreeClusters(img.fat);
  }

  lemma MovedFat(vol: Volume, img: Image, grown: Image, d: nat, k: Key, d2: nat, k2: Key, g: Group, up: Slot)
    requires MoveDone(img, grown, d, k, d2, k2, g, up, vol.store.table.View(), vol.store.disk[..])
    ensures vol.Now().fat == grown.fat
  {
    hide ValidImage, Tree, DirGrown, RelocateWritten, FirstCluster, Size, Attributes, IsDirectory, IsDot;
  }

  lemma MoveFree(img: Image, grown: Image, d: nat, n: nat)
    requires OnlyGrew(img, grown, d, n)
    ensures |FreeClusters(grown.fat)| == |FreeClusters(img.fat)| - n
  {
    hide FreeClusters, Gained;
  }

  lemma FreeCases(img: Image, op: Op)
    requires ValidImage(img)
    ensures op.Write? ==>
              var l := Locate(img, op.path);
              if l.Fails? then FreeAfter(img, op) == |FreeClusters(img.fat)|
              else img.size > 0 && l.dir in img.views && l.dir in img.chains
                   && FreeAfter(img, op) == FreeAfterWrite(img, l.dir, l.name, |op.data|, op.append)
                   && WriteResult(img, op.path, |op.data|, op.append) ==
                      WriteAtResult(img, l.dir, l.name, |op.data|, op.append)
    ensures op.Make? ==>
              var l := Locate(img, op.path);
              if l.Fails? then FreeAfter(img, op) == |FreeClusters(img.fat)|
              else l.dir in img.views && l.dir in img.chains
                   && FreeAfter(img, op) == FreeAfterMake(img, l.dir, l.name)
                   && MakeDirResult(img, op.path) == MakeDirAtResult(img, l.dir, l.name)
    ensures op.Erase? ==>
              FreeAfter(img, op) == |FreeClusters(img.fat)| +
              if RemoveResult(img, op.path) == Ok && Locate(img, op.path).In?
              then |HeldBy(img, Locate(img, op.path).dir, Fold(Locate(img, op.path).name))| else 0
    ensures op.Move? && (RenameResult(img, op.from, op.to) != Ok || op.from == op.to) ==>
              FreeAfter(img, op) == |FreeClusters(img.fat)|
    ensures op.Move? && RenameResult(img, op.from, op.to) == Ok && op.from != op.to ==>
              var l, l2 := Locate(img, op.from), Locate(img, op.to);
              && l.In? && l2.In? && Listed(img, l.dir, Fold(l.name)) && l2.dir in img.views && l2.dir in img.chains
              && FreeAfter(img, op) ==
                 |FreeClusters(img.fat)| - RenameGrowth(img, l.dir, Fold(l.name), l2.dir, l2.name)
  {
    match op {
      case Write(path, _, _) => LocatedPlace(img, path);
      case Make(path) => LocatedPlace(img, path);
      case Erase(path) => LocatedPlace(img, path);
      case Move(from, to) =>
        RenameCheck(img, from, to);
        LocatedPlace(img, to);
    }
    hide ValidImage, FreeClusters, Tree, Locate, HeldBy, WriteAtResult, MakeDirAtResult, RemoveAtResult, RenameResult,
         FreeAfterWrite, FreeAfterMake, RenameGrowth, DescendantOf, Fold;
  }

  lemma NowValid(vol: Volume)
    requires vol.Valid()
    ensures ValidImage(vol.Now()) && vol.Now().root == vol.root
  {
    hide ValidImage;
    vol.Parts();
    RootOf(vol);
  }

  /** Every operation on paths that path_normalize has left in a 128-byte buffer is allowed. */
  lemma NormalAllowed(cwd: Str, input: Str, cwd2: Str, input2: Str, data: seq<Byte>, append: bool)
    requires |Normal(cwd, input)| < PARENT_CAPACITY && |Normal(cwd2, input2)| < PARENT_CAPACITY && |data| <= MAX_WRITE
    ensures var path, to := Normal(cwd, input), Normal(cwd2, input2);
            Allowed(Write(path, data, append)) && Allowed(Make(path)) && Allowed(Erase(path)) && Allowed(Move(path, to))
  {
    NormalFits(cwd, input);
    NormalFits(cwd2, input2);
    hide ParentFits, Normal;
  }

  /** One operation through the kernel's entry points. */
  method Execute(vol: Volume, op: Op) returns (r: Result)
    requires vol.Valid() && vol.SmallDirectories() && Allowed(op)
    modifies vol, vol.store.disk, vol.store.table.entries
    ensures vol.Valid()
    ensures r == old(ResultOf(vol.Now(), op))
    ensures |FreeClusters(vol.Now().fat)| == old(FreeAfter(vol.Now(), op))
    ensures Stepped(old(Tree(vol.Now())), vol.root, Tree(vol.Now()), op, r)
    ensures forall n: nat :: Roomy(old(Tree(vol.Now())), n + 1) ==> Roomy(Tree(vol.Now()), n)
  {
    hide *;
    ghost var img := vol.Now();
    vol.Parts();
    RootOf(vol);
    ResultCases(img, op);
    FreeCases(img, op);
    AllowedParts(op);
    match op {
      case Write(path, data, append) =>
        FileBound(vol, path, append);
        r := WriteFile(vol, path, data, append);
        if Locate(img, path).In? {
          WriteFree(img, vol.Now(), Locate(img, path).dir, Locate(img, path).name, |data|, append);
        }
        if r == Ok {
          WriteSteps(img, path, data, append);
          OneMoreWrite(Tree(img), Locate(img, path).dir, Fold(Locate(img, path).name), data, append);
        }
      case Make(path) =>
        ghost var made;
        r, made := MakeDir(vol, path);
        if Locate(img, path).In? {
          MakeFree(img, vol.Now(), Locate(img, path).dir, Locate(img, path).name, made);
        }
        if r == Ok {
          MakeSteps(img, path, made);
          OneMoreMake(Tree(img), Locate(img, path).dir, Fold(Locate(img, path).name), made);
        }
      case Erase(path) =>
        r := Remove(vol, path);
        if r == Ok {
          EraseFree(img, Locate(img, path).dir, Fold(Locate(img, path).name), FreeClusters(vol.Now().fat));
          EraseSteps(img, path);
          OneMoreErase(Tree(img), Locate(img, path).dir, Fold(Locate(img, path).name));
        }
      case Move(from, to) =>
        ghost var grown, g, up;
        RenameCheck(img, from, to);
        r, grown, g, up := Rename(vol, from, to);
        if r == Ok && from != to {
          MoveFree(img, grown, Locate(img, to).dir,
            RenameGrowth(img, Locate(img, from).dir, Fold(Locate(img, from).name), Locate(img, to).dir,
              Locate(img, to).name));
          MovedFat(vol, img, grown, Locate(img, from).dir, Fold(Locate(img, from).name), Locate(img, to).dir,
            Fold(Locate(img, to).name), g, up);
          MoveSteps(img, from, to);
          OneMoreMoved(img, Locate(img, from).dir, Fold(Locate(img, from).name), Locate(img, to).dir,
            Fold(Locate(img, to).name));
        }
    }
    if r != Ok || (op.Move? && op.from == op.to) {
      NothingSteps(Tree(img), vol.root, op, r);
      OneMoreSame(Tree(img));
    }
    RoomyAfter(Tree(img), Tree(vol.Now()));
  }

  /** Any sequence of writes, appends, mkdirs, removals and renames, successful or not: the volume
      invariant holds throughout, every operation returns exactly what the state it meets calls for,
      leaves exactly as many clusters free, and does on every path exactly what the simple file system
      does. */
  method Run(vol: Volume, ops: seq<Op>) returns (results: seq<Result>, ghost images: seq<Image>)
    requires vol.Valid() && Roomy(Tree(vol.Now()), |ops|)
    requires forall i | 0 <= i < |ops| :: Allowed(ops[i])
    modifies vol, vol.store.disk, vol.store.table.entries
    ensures vol.Valid()
    ensures |results| == |ops| && |images| == |ops| + 1
    ensures images[0] == old(vol.Now()) && images[|ops|] == vol.Now()
    ensures forall i | 0 <= i <= |ops| :: ValidImage(images[i]) && images[i].root == vol.root
    ensures forall i | 0 <= i < |ops| ::
              && results[i] == ResultOf(images[i], ops[i])
              && |FreeClusters(images[i + 1].fat)| == FreeAfter(images[i], ops[i])
              && Stepped(Tree(images[i]), vol.root, Tree(images[i + 1]), ops[i], results[i])
  {
    hide *;
    NowValid(vol);
    results, images := [], [vol.Now()];
    for i := 0 to |ops|
      invariant vol.Valid() && Roomy(Tree(vol.Now()), |ops| - i)
      invariant |results| == i && |images| == i + 1 && images[0] == old(vol.Now()) && images[i] == vol.Now()
      invariant forall j | 0 <= j <= i :: ValidImage(images[j]) && images[j].root == vol.root
      invariant forall j | 0 <= j < i ::
                  && results[j] == ResultOf(images[j], ops[j])
                  && |FreeClusters(images[j + 1].fat)| == FreeAfter(images[j], ops[j])
                  && Stepped(Tree(images[j]), vol.root, Tree(images[j + 1]), ops[j], results[j])
    {
      RoomyIsSmall(vol, |ops| - i);
      var r := Execute(vol, ops[i]);
      NowValid(vol);
      results, images := results + [r], images + [vol.Now()];
    }
  }

  /** What the volume invariant says of the table: every chain stays inside it, visits no cluster
      twice and ends with an end mark; no two chains meet; and no chain cluster is free. */
  lemma ChainsSafe(img: Image)
    requires ValidImage(img)
    ensures forall h | h in img.chains ::
              && img.chains[h] != [] && img.chains[h][0] == h && NoDuplicates(img.chains[h])
              && Next(img.fat, img.chains[h][|img.chains[h]| - 1]) >= END_OF_CHAIN
              && forall c | c in img.chains[h] :: IsDataCluster(img.fat, c) && c !in FreeClusters(img.fat)
    ensures forall h, l, c | h in img.chains && l in img.chains && h != l && c in img.chains[h] :: c !in img.chains[l]
  {
    hide Linked, AllSlots;
    forall h | h in img.chains
      ensures && img.chains[h] != [] && img.chains[h][0] == h && NoDuplicates(img.chains[h])
              && Next(img.fat, img.chains[h][|img.chains[h]| - 1]) >= END_OF_CHAIN
              && forall c | c in img.chains[h] :: IsDataCluster(img.fat, c) && c !in FreeClusters(img.fat)
    {
      assert ChainAt(img.fat, img.chains, h);
      ChainAcyclic(img.fat, img.chains[h]);
      assert LinkAt(img.fat, img.chains[h], |img.chains[h]| - 1);
      forall c | c in img.chains[h] ensures IsDataCluster(img.fat, c) && c !in FreeClusters(img.fat) {
        ChainInUse(img.fat, img.chains[h], c);
      }
    }
    forall h, l, c | h in img.chains && l in img.chains && h != l && c in img.chains[h] ensures c !in img.chains[l] {
      assert Apart(img.chains[h], img.chains[l]);
    }
  }
}
