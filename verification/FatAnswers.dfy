/** What the operations answer, told by what is seen at the paths they are given and by the number
    of free clusters. */
module FatAnswers {
  import opened Bytes
  import opened FatSlots
  import opened FatNames
  import opened FatTables
  import opened FatStore
  import opened FatImage
  import opened FatLookup
  import opened FatVolume
  import opened FatNaming
  import opened FatWrites
  import opened FatMakeDir
  import opened FatRemove
  import opened FatRename
  import opened FatTree
  import opened FatPaths
  import opened FatRuns
  import opened Paths

  // ------------------------------------------------------------ where a path leads

  /** How many components from the front are valid names. */
  function ValidFront(comps: seq<Str>): (n: nat)
    ensures n <= |comps| && (forall i: nat | i < n :: ValidName(comps[i])) && (n < |comps| ==> !ValidName(comps[n]))
  {
    if comps == [] || !ValidName(comps[0]) then 0 else 1 + ValidFront(comps[1..])
  }

  lemma ValidFrontTail(comps: seq<Str>)
    requires comps != [] && ValidName(comps[0])
    ensures ValidFront(comps) == 1 + ValidFront(comps[1..])
    ensures comps[..ValidFront(comps)] != [] && comps[..ValidFront(comps)][0] == comps[0]
    ensures comps[..ValidFront(comps)][1..] == comps[1..][..ValidFront(comps[1..])]
  {
    hide ValidName;
  }

  /** A walk goes as far as the names are valid, and then says what is there. */
  lemma {:induction false} WalkTold(img: Image, d: nat, comps: seq<Str>)
    requires ValidImage(img) && d in img.views && d in img.paths
    ensures var n := ValidFront(comps);
            match Lookup(Tree(img), d, PlaceOf(comps[..n]))
            case Missing => Walk(img, d, comps) == Error(NotFound)
            case NotDir => Walk(img, d, comps) == Error(NotADirectory)
            case At(FileNode(_)) =>
              if n < |comps| then Walk(img, d, comps) == Error(NotADirectory)
              else Walk(img, d, comps).Named? && LeadsTo(img, Walk(img, d, comps)) == None
            case At(DirNode(e)) =>
              if n < |comps| then Walk(img, d, comps) == Error(InvalidName)
              else !Walk(img, d, comps).Error? && LeadsTo(img, Walk(img, d, comps)) == Some(e)
    decreases |comps|
  {
    hide *;
    if comps == [] {
      WalkEmpty(img, d);
      EmptyPlace(img, d, comps);
      LeadsItself(img, d);
    } else {
      WalkStep(img, d, comps);
      if !ValidName(comps[0]) {
        assert ValidFront(comps) == 0;
        EmptyPlace(img, d, comps);
      } else {
        WalkOn(img, d, comps);
      }
    }
  }

  /** The directory a walk ends at, if it does. */
  ghost function LeadsTo(img: Image, t: Target): Option<nat> {
    match t
    case Itself(d) => Some(d)
    case Named(d, k) =>
      if Listed(img, d, k) && IsDirectory(EntryOf(img, d, k)) then Some(FirstCluster(EntryOf(img, d, k))) else None
    case Error(_) => None
  }

  lemma LeadsItself(img: Image, d: nat)
    ensures LeadsTo(img, Target.Itself(d)) == Some(d)
  {
  }

  lemma LeadsNamed(img: Image, d: nat, k: Key)
    requires Listed(img, d, k)
    ensures LeadsTo(img, Target.Named(d, k)) ==
            if IsDirectory(EntryOf(img, d, k)) then Some(FirstCluster(EntryOf(img, d, k))) else None
  {
    hide IsDirectory, FirstCluster, EntryOf;
  }

  lemma EmptyPlace(img: Image, d: nat, comps: seq<Str>)
    ensures comps[..0] == [] && Lookup(Tree(img), d, PlaceOf([])) == At(DirNode(d))
    ensures comps == [] ==> ValidFront(comps) == 0
  {
    hide Tree;
  }

  /** The case of a first name that is valid. */
  lemma WalkOn(img: Image, d: nat, comps: seq<Str>)
    requires ValidImage(img) && d in img.views && d in img.paths && comps != [] && ValidName(comps[0])
    ensures var n := ValidFront(comps);
            match Lookup(Tree(img), d, PlaceOf(comps[..n]))
            case Missing => Walk(img, d, comps) == Error(NotFound)
            case NotDir => Walk(img, d, comps) == Error(NotADirectory)
            case At(FileNode(_)) =>
              if n < |comps| then Walk(img, d, comps) == Error(NotADirectory)
              else Walk(img, d, comps).Named? && LeadsTo(img, Walk(img, d, comps)) == None
            case At(DirNode(e)) =>
              if n < |comps| then Walk(img, d, comps) == Error(InvalidName)
              else !Walk(img, d, comps).Error? && LeadsTo(img, Walk(img, d, comps)) == Some(e)
    decreases |comps|, 0
  {
    hide *;
    var n, k := ValidFront(comps), Fold(comps[0]);
    var front := comps[..n];
    ValidFrontTail(comps);
    NotDotName(comps[0]);
    StepMeans(img, d, front);
    WalkStep(img, d, comps);
    if Listed(img, d, k) {
      ListedInTree(img, d, k);
      LeadsNamed(img, d, k);
      if IsDirectory(EntryOf(img, d, k)) && comps[1..] != [] {
        var f := FirstCluster(EntryOf(img, d, k));
        WalkTold(img, f, comps[1..]);
        if front[1..] == [] { EmptyPlace(img, f, comps[1..]); }
      }
    }
  }

  /** Which paths the operations accept, and what they answer to the others: a path is to start with
      a slash, to have more than that, and not to end in one; its last component is to be a valid
      name; and what is in front is to be a directory, told from the front. */
  lemma LocateTold(img: Image, path: Str)
    requires ValidImage(img)
    ensures !(|path| >= 2 && path[0] == SLASH && path[|path| - 1] != SLASH) ==>
              Locate(img, path) == Fails(InvalidName)
    ensures |path| >= 2 && path[0] == SLASH && path[|path| - 1] != SLASH ==>
              && Components(path) != []
              && var last := Components(path)[|Components(path)| - 1];
                 var front := Components(path)[..|Components(path)| - 1];
                 var n := ValidFront(front);
                 && (!ValidName(last) ==> Locate(img, path) == Fails(InvalidName))
                 && (ValidName(last) ==>
                       match SeenAt(Tree(img), img.root, PlaceOf(front[..n]))
                       case Nothing => Locate(img, path) == Fails(NotFound)
                       case ThroughFile => Locate(img, path) == Fails(NotADirectory)
                       case File(_) => Locate(img, path) == Fails(NotADirectory)
                       case Directory =>
                         if n < |front| then Locate(img, path) == Fails(InvalidName)
                         else Locate(img, path).In? && Locate(img, path).name == last
                              && Lookup(Tree(img), img.root, PlaceOf(front)) == At(DirNode(Locate(img, path).dir)))
  {
    hide *;
    LocateMalformed(img, path);
    if |path| >= 2 && path[0] == SLASH && path[|path| - 1] != SLASH {
      WellFormed(path);
      SplitComponents(path);
      assert Components(path)[..|Components(path)| - 1] == Components(ParentOf(path));
      LocateParts(img, path);
      if ValidName(NameOf(path)) { LocateFront(img, path, Components(ParentOf(path))); }
    }
  }

  lemma LocateFront(img: Image, path: Str, front: seq<Str>)
    requires ValidImage(img) && Splittable(path) && LastSlash(path) >= 0 && ValidName(NameOf(path))
    requires front == Components(ParentOf(path))
    ensures var n := ValidFront(front);
            match SeenAt(Tree(img), img.root, PlaceOf(front[..n]))
            case Nothing => Locate(img, path) == Fails(NotFound)
            case ThroughFile => Locate(img, path) == Fails(NotADirectory)
            case File(_) => Locate(img, path) == Fails(NotADirectory)
            case Directory =>
              if n < |front| then Locate(img, path) == Fails(InvalidName)
              else Locate(img, path).In? && Locate(img, path).name == NameOf(path)
                   && Lookup(Tree(img), img.root, PlaceOf(front)) == At(DirNode(Locate(img, path).dir))
  {
    hide *;
    LocateParts(img, path);
    RootInPlace(img);
    WalkTold(img, img.root, front);
    LeadsNowhere(img);
    SeenIs(Tree(img), img.root, PlaceOf(front[..ValidFront(front)]));
    assert ValidFront(front) == |front| ==> front[..ValidFront(front)] == front;
  }

  lemma LeadsNowhere(img: Image)
    ensures forall r :: LeadsTo(img, Error(r)) == None
  {
    hide IsDirectory, FirstCluster;
  }

  lemma LocateMalformed(img: Image, path: Str)
    ensures !(|path| >= 2 && path[0] == SLASH && path[|path| - 1] != SLASH) ==>
              Locate(img, path) == Fails(InvalidName)
  {
    hide LocateIn;
  }

  lemma WellFormed(path: Str)
    requires |path| >= 2 && path[0] == SLASH && path[|path| - 1] != SLASH
    ensures Splittable(path)
  {
  }

  lemma LocateParts(img: Image, path: Str)
    requires Splittable(path) && LastSlash(path) >= 0
    ensures !ValidName(NameOf(path)) ==> Locate(img, path) == Fails(InvalidName)
    ensures ValidName(NameOf(path)) ==>
              var t := Walk(img, img.root, Components(ParentOf(path)));
              Locate(img, path) ==
              if t.Error? then Fails(t.result)
              else if LeadsTo(img, t).Some? then In(LeadsTo(img, t).value, NameOf(path)) else Fails(NotADirectory)
  {
    hide ValidName, Walk, Components, IsDirectory, FirstCluster, EntryOf;
  }

  lemma SeenIs(tree: FileSystem, root: nat, q: seq<Key>)
    ensures match Lookup(tree, root, q)
            case Missing => SeenAt(tree, root, q) == Nothing
            case NotDir => SeenAt(tree, root, q) == ThroughFile
            case At(FileNode(bytes)) => SeenAt(tree, root, q) == File(bytes)
            case At(DirNode(_)) => SeenAt(tree, root, q) == Directory
  {
    hide Lookup;
  }

  /** With valid names all along: the answer depends on what the path's parent is. */
  lemma ValidPathTold(img: Image, path: Str)
    requires ValidImage(img) && |path| >= 2 && path[0] == SLASH && path[|path| - 1] != SLASH
    requires forall i: nat | i < |Components(path)| :: ValidName(Components(path)[i])
    ensures Components(path) != [] && Locate(img, path) != Fails(InvalidName)
    ensures var p := PlaceOf(Components(path));
            match SeenAt(Tree(img), img.root, p[..|p| - 1])
            case Directory => Locate(img, path).In?
            case Nothing => Locate(img, path) == Fails(NotFound)
            case _ => Locate(img, path) == Fails(NotADirectory)
  {
    hide *;
    LocateTold(img, path);
    var comps := Components(path);
    AllValid(comps);
    PlaceFront(comps);
  }

  lemma AllValid(comps: seq<Str>)
    requires comps != [] && forall i: nat | i < |comps| :: ValidName(comps[i])
    ensures ValidName(comps[|comps| - 1])
    ensures var front := comps[..|comps| - 1];
            ValidFront(front) == |front| && front[..|front|] == front
  {
    hide ValidName;
  }

  lemma PlaceFront(comps: seq<Str>)
    requires comps != []
    ensures |PlaceOf(comps)| == |comps| && PlaceOf(comps)[..|comps| - 1] == PlaceOf(comps[..|comps| - 1])
    ensures PlaceOf(comps)[|comps| - 1] == Fold(comps[|comps| - 1])
  {
  }

  // ---------------------------------------------------------------- the answers

  /** A name that was located is what is seen at the path. */
  lemma LocatedSeen(img: Image, path: Str)
    requires ValidImage(img) && Locate(img, path).In?
    ensures var l, p := Locate(img, path), PlaceOf(Components(path));
            var k := Fold(l.name);
            && l.dir in img.views && l.dir in img.chains && img.size > 0 && !IsDot(k) && p != []
            && SeenAt(Tree(img), img.root, p) != ThroughFile
            && (Listed(img, l.dir, k) <==> SeenAt(Tree(img), img.root, p) != Nothing)
            && (Listed(img, l.dir, k) ==>
                  && (IsDirectory(EntryOf(img, l.dir, k)) <==> SeenAt(Tree(img), img.root, p) == Directory)
                  && (!IsDirectory(EntryOf(img, l.dir, k)) ==>
                        SeenAt(Tree(img), img.root, p).File?
                        && |SeenAt(Tree(img), img.root, p).bytes| == Size(EntryOf(img, l.dir, k))))
            && l.dir in Tree(img)
            && SeenAt(Tree(img), img.root, p) ==
               if k in Tree(img)[l.dir] then SeenNode(Tree(img)[l.dir][k]) else Nothing
  {
    hide *;
    LocatedPlace(img, path);
    LocatedSpells(img, path);
    TreeRooted(img);
    var l, p := Locate(img, path), PlaceOf(Components(path));
    var k := Fold(l.name);
    HereFound(Tree(img), img.root, img.paths, l.dir, k);
    SeenIs(Tree(img), img.root, p);
    ListedInTree(img, l.dir, k);
    if Listed(img, l.dir, k) {
      NodeSeen(Tree(img)[l.dir][k]);
      if !IsDirectory(EntryOf(img, l.dir, k)) {
        FileBytes(img, l.dir, k);
      }
    }
  }

  function SeenNode(node: Node): Seen {
    match node
    case FileNode(bytes) => File(bytes)
    case DirNode(_) => Directory
  }

  lemma NodeSeen(node: Node)
    ensures node.FileNode? ==> SeenNode(node) == File(node.bytes)
    ensures node.DirNode? ==> SeenNode(node) == Directory
  {
  }

  /** A write: to a directory it is refused; for a file it takes the clusters the file grows by, for
      a new name those of its data and one more if the directory has no room. */
  lemma WriteTold(img: Image, path: Str, data: seq<Byte>, append: bool)
    requires ValidImage(img)
    ensures var op := Write(path, data, append);
            var free := |FreeClusters(img.fat)|;
            match Locate(img, path)
            case Fails(e) => ResultOf(img, op) == e
            case In(d, name) =>
              && img.size > 0 && d in img.views && d in img.chains
              && match SeenAt(Tree(img), img.root, PlaceOf(Components(path)))
                 case Directory => ResultOf(img, op) == IsADirectory
                 case ThroughFile => false
                 case File(bytes) =>
                   ResultOf(img, op) ==
                   if free + ClustersFor(img.size, |bytes|) <
                      ClustersFor(img.size, (if append then |bytes| else 0) + |data|)
                   then NoSpace else Ok
                 case Nothing =>
                   ResultOf(img, op) ==
                   if free < ClustersFor(img.size, |data|)
                             + (if HasRun(SlotsOf(img, d), SlotsNeeded(img, d, name)) then 0 else 1)
                   then NoSpace else Ok
  {
    hide *;
    var op := Write(path, data, append);
    ResultCases(img, op);
    FreeCases(img, op);
    WriteLocated(img, path, |data|, append);
    if Locate(img, path).In? {
      var l := Locate(img, path);
      LocatedSeen(img, path);
      DemandTold(img, l.dir, l.name, |data|, append);
    }
  }

  lemma WriteLocated(img: Image, path: Str, length: nat, append: bool)
    requires ValidImage(img)
    ensures Locate(img, path).Fails? ==> WriteResult(img, path, length, append) == Locate(img, path).result
  {
    hide ValidImage, Locate, WriteAtResult;
  }

  lemma DemandTold(img: Image, d: nat, name: Str, length: nat, append: bool)
    requires img.size > 0 && d in img.views && d in img.chains
    ensures var k, free := Fold(name), |FreeClusters(img.fat)|;
            WriteAtResult(img, d, name, length, append) ==
            if Listed(img, d, k) && IsDirectory(EntryOf(img, d, k)) then IsADirectory
            else if Listed(img, d, k) then
              var held := Size(EntryOf(img, d, k));
              if free + ClustersFor(img.size, held) < ClustersFor(img.size, (if append then held else 0) + length)
              then NoSpace else Ok
            else if free < ClustersFor(img.size, length)
                           + (if HasRun(SlotsOf(img, d), SlotsNeeded(img, d, name)) then 0 else 1)
            then NoSpace else Ok
  {
    hide FreeClusters, ClustersFor, HasRun, SlotsOf, SlotsNeeded, Fold, IsDirectory, Size;
  }

  /** A new directory takes a cluster, and one more if the directory above has no room. */
  lemma MakeTold(img: Image, path: Str)
    requires ValidImage(img)
    ensures match Locate(img, path)
            case Fails(e) => ResultOf(img, Make(path)) == e
            case In(d, name) =>
              && d in img.views && d in img.chains
              && ResultOf(img, Make(path)) ==
                 if SeenAt(Tree(img), img.root, PlaceOf(Components(path))) != Nothing then AlreadyExists
                 else if |FreeClusters(img.fat)| <
                         (if HasRun(SlotsOf(img, d), SlotsNeeded(img, d, name)) then 1 else 2) then NoSpace
                 else Ok
  {
    hide *;
    ResultCases(img, Make(path));
    FreeCases(img, Make(path));
    MakeLocated(img, path);
    if Locate(img, path).In? {
      LocatedSeen(img, path);
      MakeAtTold(img, Locate(img, path).dir, Locate(img, path).name);
    }
  }

  lemma MakeLocated(img: Image, path: Str)
    requires ValidImage(img)
    ensures Locate(img, path).Fails? ==> MakeDirResult(img, path) == Locate(img, path).result
  {
    hide ValidImage, Locate, MakeDirAtResult;
  }

  lemma MakeAtTold(img: Image, d: nat, name: Str)
    requires d in img.views && d in img.chains
    ensures MakeDirAtResult(img, d, name) ==
            if Listed(img, d, Fold(name)) then AlreadyExists
            else if |FreeClusters(img.fat)| < (if HasRun(SlotsOf(img, d), SlotsNeeded(img, d, name)) then 1 else 2)
            then NoSpace else Ok
  {
    hide FreeClusters, HasRun, SlotsOf, SlotsNeeded, Fold;
  }

  /** Removing succeeds for files and for directories below which nothing is seen. */
  lemma EraseTold(img: Image, path: Str)
    requires ValidImage(img)
    ensures var p := PlaceOf(Components(path));
            match Locate(img, path)
            case Fails(e) => ResultOf(img, Erase(path)) == e
            case In(_, _) =>
              match SeenAt(Tree(img), img.root, p)
              case Nothing => ResultOf(img, Erase(path)) == NotFound
              case ThroughFile => false
              case File(_) => ResultOf(img, Erase(path)) == Ok
              case Directory =>
                ResultOf(img, Erase(path)) ==
                if forall k :: SeenAt(Tree(img), img.root, p + [k]) == Nothing then Ok else DirectoryNotEmpty
  {
    hide *;
    ResultCases(img, Erase(path));
    EraseLocated(img, path);
    if Locate(img, path).In? {
      var l, p := Locate(img, path), PlaceOf(Components(path));
      LocatedSeen(img, path);
      RemoveAtTold(Tree(img), l.dir, Fold(l.name));
      if Fold(l.name) in Tree(img)[l.dir] { NodeSeen(Tree(img)[l.dir][Fold(l.name)]); }
      if SeenAt(Tree(img), img.root, p) == Directory {
        ListedInTree(img, l.dir, Fold(l.name));
        BelowTold(img, l.dir, Fold(l.name), p, path);
      }
    }
  }

  lemma EraseLocated(img: Image, path: Str)
    requires ValidImage(img)
    ensures match Locate(img, path)
            case Fails(e) => RemoveResult(img, path) == e
            case In(d, name) => d in Tree(img) && RemoveResult(img, path) == RemoveAtResult(Tree(img), d, Fold(name))
  {
    LocatedPlace(img, path);
    hide ValidImage, Locate, RemoveAtResult, Tree, Fold, IsDot, ValidName;
  }

  lemma RemoveAtTold(tree: FileSystem, d: nat, k: Key)
    requires d in tree
    ensures k !in tree[d] ==> RemoveAtResult(tree, d, k) == NotFound
    ensures k in tree[d] && SeenNode(tree[d][k]).File? ==> RemoveAtResult(tree, d, k) == Ok
    ensures k in tree[d] && tree[d][k].DirNode? && tree[d][k].dir in tree ==>
              RemoveAtResult(tree, d, k) == if tree[tree[d][k].dir] == map[] then Ok else DirectoryNotEmpty
  {
  }

  /** A directory's listing is empty exactly if nothing is seen right below it. */
  lemma BelowTold(img: Image, d: nat, k: Key, p: seq<Key>, path: Str)
    requires ValidImage(img) && Locate(img, path).In? && d == Locate(img, path).dir && k == Fold(Locate(img, path).name)
    requires p == PlaceOf(Components(path)) && d in Tree(img) && k in Tree(img)[d] && Tree(img)[d][k].DirNode?
    ensures var f := Tree(img)[d][k].dir;
            f in Tree(img)
            && (Tree(img)[f] == map[] <==> forall j :: SeenAt(Tree(img), img.root, p + [j]) == Nothing)
  {
    hide *;
    LocatedSpells(img, path);
    TreeRooted(img);
    ChildPlace(Tree(img), img.root, img.paths, d, k);
    var tree, f := Tree(img), Tree(img)[d][k].dir;
    forall j ensures SeenAt(tree, img.root, p + [j]) == Nothing <==> j !in tree[f] {
      HereFound(tree, img.root, img.paths, f, j);
      SeenIs(tree, img.root, p + [j]);
      if j in tree[f] { NodeSeen(tree[f][j]); }
    }
    EmptyMap(tree[f]);
  }

  lemma EmptyMap<K, V>(m: map<K, V>)
    ensures m == map[] <==> forall j :: j !in m
  {
    if m != map[] {
      assert m.Keys != {};
      var j :| j in m;
    }
  }

  /** A rename answers for the old path, then for the new one, then for what is seen there. */
  lemma MoveTold(img: Image, from: Str, to: Str)
    requires ValidImage(img)
    ensures from == to ==> ResultOf(img, Move(from, to)) == Ok
    ensures from != to && Locate(img, from).Fails? ==> ResultOf(img, Move(from, to)) == Locate(img, from).result
    ensures from != to && Locate(img, from).In? && Locate(img, to).Fails? ==>
              ResultOf(img, Move(from, to)) == Locate(img, to).result
    ensures from != to && Locate(img, from).In? && Locate(img, to).In? ==>
              var here := SeenAt(Tree(img), img.root, PlaceOf(Components(from)));
              var there := SeenAt(Tree(img), img.root, PlaceOf(Components(to)));
              && LastSlash(to) >= 0 && from != []
              && (here == Nothing ==> ResultOf(img, Move(from, to)) == NotFound)
              && (here == Directory && DescendantOf(ParentOf(to), from) ==>
                ResultOf(img, Move(from, to)) == InvalidName)
              && (here != Nothing && !(here == Directory && DescendantOf(ParentOf(to), from)) ==>
                    if there != Nothing then ResultOf(img, Move(from, to)) == AlreadyExists
                    else ResultOf(img, Move(from, to)) ==
                         if NoRoomAt(img, Locate(img, from), Locate(img, to)) then NoSpace else Ok)
  {
    hide *;
    ResultCases(img, Move(from, to));
    MoveSame(img, from);
    if from != to {
      RenamePaths(img, from, to);
      if Locate(img, from).In? && Locate(img, to).In? {
        LocatedSeen(img, from);
        LocatedSeen(img, to);
        LocatedSpells(img, to);
        var l, l2 := Locate(img, from), Locate(img, to);
        RenameAtCases(img, l.dir, l.name, l2.dir, l2.name, LastSlash(to) >= 0 && DescendantOf(ParentOf(to), from));
        NoRoomIs(img, l, l2);
      }
    }
  }

  lemma MoveSame(img: Image, path: Str)
    requires ValidImage(img)
    ensures RenameResult(img, path, path) == Ok
  {
    hide ValidImage, Locate, RenameAtResult, DescendantOf;
  }

  /** No cluster is free, the new name's directory has no run of free slots for it, and it does not
      fit over the old name in the same directory. */
  ghost predicate NoRoomAt(img: Image, l: Location, l2: Location) {
    && l.In? && l2.In? && Listed(img, l.dir, Fold(l.name)) && l2.dir in img.views && l2.dir in img.chains
    && var needed := RenameSlots(img, l.dir, Fold(l.name), l2.dir, l2.name);
       && FreeClusters(img.fat) == {} && !HasRun(SlotsOf(img, l2.dir), needed)
       && (l.dir == l2.dir ==> needed > img.views[l.dir][Fold(l.name)].lfns + 1)
  }

  lemma NoRoomIs(img: Image, l: Location, l2: Location)
    requires l.In? && l2.In? && l2.dir in img.views && l2.dir in img.chains
    ensures Listed(img, l.dir, Fold(l.name)) ==>
              (NoRoomAt(img, l, l2) <==> NoRoomToMove(img, l.dir, Fold(l.name), l2.dir, l2.name))
  {
    hide FreeClusters, HasRun, SlotsOf, RenameSlots, Fold;
  }

  /** Reading delivers what is seen at the path. */
  lemma ReadTold(img: Image, path: Str, r: Result, out: seq<Byte>)
    requires ValidImage(img)
    requires var t := Walk(img, img.root, Components(path));
             && (t.Error? ==> r == t.result)
             && (t.Itself? ==> r == IsADirectory)
             && (t.Named? ==>
                   if IsDirectory(EntryOf(img, t.dir, t.key)) then r == IsADirectory
                   else r == Ok && t.dir in Tree(img) && t.key in Tree(img)[t.dir]
                        && Tree(img)[t.dir][t.key] == FileNode(out))
    ensures var comps := Components(path);
            var n := ValidFront(comps);
            match SeenAt(Tree(img), img.root, PlaceOf(comps[..n]))
            case Nothing => r == NotFound
            case ThroughFile => r == NotADirectory
            case File(bytes) => if n < |comps| then r == NotADirectory else r == Ok && out == bytes
            case Directory => r == if n < |comps| then InvalidName else IsADirectory
  {
    hide *;
    var comps := Components(path);
    var n, t := ValidFront(comps), Walk(img, img.root, comps);
    RootInPlace(img);
    WalkTold(img, img.root, comps);
    SeenIs(Tree(img), img.root, PlaceOf(comps[..n]));
    if t.Named? {
      NamedTold(img, comps, t);
      if n == |comps| { assert comps[..n] == comps; }
    }
  }

  /** The file or directory a walk names is the one seen. */
  lemma NamedTold(img: Image, comps: seq<Str>, t: Target)
    requires ValidImage(img) && t == Walk(img, img.root, comps) && t.Named?
    requires img.root in img.views && img.root in img.paths
    ensures Listed(img, t.dir, t.key) && LeadsTo(img, t).Some? == IsDirectory(EntryOf(img, t.dir, t.key))
    ensures t.dir in Tree(img) && t.key in Tree(img)[t.dir]
            && Lookup(Tree(img), img.root, PlaceOf(comps)) == At(Tree(img)[t.dir][t.key])
  {
    hide *;
    WalkMeans(img, img.root, comps);
    WalkIsLinked(img, img.root, comps);
    LeadsNamed(img, t.dir, t.key);
    NamedInViews(img, t.dir, t.key);
    ListedInTree(img, t.dir, t.key);
  }

  /** How many clusters are free after a write that succeeds: overwriting leaves the file just what
      its bytes need, appending takes what they need more. */
  lemma WriteFreeTold(img: Image, path: Str, data: seq<Byte>, append: bool)
    requires ValidImage(img) && ResultOf(img, Write(path, data, append)) == Ok
    ensures Locate(img, path).In? && img.size > 0
    ensures var l, free := Locate(img, path), |FreeClusters(img.fat)|;
            && l.dir in img.views && l.dir in img.chains
            && match SeenAt(Tree(img), img.root, PlaceOf(Components(path)))
               case File(bytes) =>
                 FreeAfter(img, Write(path, data, append)) ==
                 if append
                 then free + ClustersFor(img.size, |bytes|) - ClustersFor(img.size, |bytes| + |data|)
                 else free + |HeldBy(img, l.dir, Fold(l.name))| - ClustersFor(img.size, |data|)
               case Nothing =>
                 FreeAfter(img, Write(path, data, append)) ==
                 free - ClustersFor(img.size, |data|)
                 - if HasRun(SlotsOf(img, l.dir), SlotsNeeded(img, l.dir, l.name)) then 0 else 1
               case _ => false
  {
    hide *;
    var op := Write(path, data, append);
    ResultCases(img, op);
    FreeCases(img, op);
    WriteTold(img, path, data, append);
    LocateFails(img, path);
    LocatedSeen(img, path);
    var l := Locate(img, path);
    HeldChain(img, l.dir, Fold(l.name));
    FreeOfWrite(img, l.dir, l.name, |data|, append);
  }

  lemma LocateFails(img: Image, path: Str)
    requires ValidImage(img)
    ensures Locate(img, path).Fails? ==> Locate(img, path).result != Ok
  {
    hide *;
    LocatedPlace(img, path);
  }

  /** A file that holds no clusters has no bytes. */
  lemma HeldChain(img: Image, d: nat, k: Key)
    requires ValidImage(img) && img.size > 0 && !IsDot(k)
    ensures Listed(img, d, k) && !IsDirectory(EntryOf(img, d, k)) && HeldBy(img, d, k) == [] ==>
              Size(EntryOf(img, d, k)) == 0
    ensures !Listed(img, d, k) ==> HeldBy(img, d, k) == []
  {
    if Listed(img, d, k) && !IsDirectory(EntryOf(img, d, k)) {
      FileBytes(img, d, k);
      var f := FirstCluster(EntryOf(img, d, k));
      if f != 0 {
        ValidParts(img);
        assert ChainAt(img.fat, img.chains, f);
      }
    }
    hide ValidImage, FirstCluster, Size, IsDirectory, BytesOf;
  }

  lemma FreeOfWrite(img: Image, d: nat, name: Str, length: nat, append: bool)
    requires img.size > 0 && d in img.views && d in img.chains && WriteAtResult(img, d, name, length, append) == Ok
    requires var k := Fold(name);
             && (Listed(img, d, k) && !IsDirectory(EntryOf(img, d, k)) && HeldBy(img, d, k) == [] ==>
                   Size(EntryOf(img, d, k)) == 0)
             && (!Listed(img, d, k) ==> HeldBy(img, d, k) == [])
    ensures var k, free := Fold(name), |FreeClusters(img.fat)|;
            FreeAfterWrite(img, d, name, length, append) ==
            if Listed(img, d, k) then
              (if append then
                 free + ClustersFor(img.size, Size(EntryOf(img, d, k)))
                 - ClustersFor(img.size, Size(EntryOf(img, d, k)) + length)
               else free + |HeldBy(img, d, k)| - ClustersFor(img.size, length))
            else free - ClustersFor(img.size, length)
                 - if HasRun(SlotsOf(img, d), SlotsNeeded(img, d, name)) then 0 else 1
  {
    var k := Fold(name);
    if Listed(img, d, k) { ClustersGrow(img.size, Size(EntryOf(img, d, k)), length); }
    hide FreeClusters, ClustersFor, HasRun, SlotsOf, SlotsNeeded, Fold, IsDirectory, Size, HeldBy;
  }

  lemma ClustersGrow(size: nat, bytes: nat, more: nat)
    requires size > 0
    ensures ClustersFor(size, bytes) <= ClustersFor(size, bytes + more) && ClustersFor(size, 0) == 0
  {
    ClustersForCovers(size, bytes);
    ClustersForCovers(size, bytes + more);
    hide ClustersFor;
  }

  /** A new directory costs its own cluster, and one more if the directory above has no room. */
  lemma MakeFreeTold(img: Image, path: Str)
    requires ValidImage(img) && ResultOf(img, Make(path)) == Ok
    ensures Locate(img, path).In?
    ensures var l := Locate(img, path);
            && l.dir in img.views && l.dir in img.chains
            && FreeAfter(img, Make(path)) ==
               |FreeClusters(img.fat)| - if HasRun(SlotsOf(img, l.dir), SlotsNeeded(img, l.dir, l.name)) then 1 else 2
  {
    hide *;
    ResultCases(img, Make(path));
    FreeCases(img, Make(path));
    MakeLocated(img, path);
    LocateFails(img, path);
    FreeOfMake(img, Locate(img, path).dir, Locate(img, path).name);
  }

  lemma FreeOfMake(img: Image, d: nat, name: Str)
    requires d in img.views && d in img.chains && MakeDirAtResult(img, d, name) == Ok
    ensures FreeAfterMake(img, d, name) ==
            |FreeClusters(img.fat)| - if HasRun(SlotsOf(img, d), SlotsNeeded(img, d, name)) then 1 else 2
  {
    hide FreeClusters, HasRun, SlotsOf, SlotsNeeded, MakeDirAtResult;
  }

  /** Removing a name frees every cluster of its chain. */
  lemma EraseFreeTold(img: Image, path: Str)
    requires ValidImage(img) && ResultOf(img, Erase(path)) == Ok
    ensures Locate(img, path).In?
    ensures var l, free := Locate(img, path), |FreeClusters(img.fat)|;
            && Listed(img, l.dir, Fold(l.name))
            && var f := FirstCluster(EntryOf(img, l.dir, Fold(l.name)));
               FreeAfter(img, Erase(path)) == free + if f in img.chains then |img.chains[f]| else 0
  {
    hide *;
    ResultCases(img, Erase(path));
    FreeCases(img, Erase(path));
    EraseLocated(img, path);
    LocateFails(img, path);
    var l := Locate(img, path);
    LocatedSpells(img, path);
    ListedInTree(img, l.dir, Fold(l.name));
    RemoveAtTold(Tree(img), l.dir, Fold(l.name));
    FreeOfErase(img, l.dir, Fold(l.name));
  }

  lemma FreeOfErase(img: Image, d: nat, k: Key)
    requires Listed(img, d, k)
    ensures var f := FirstCluster(EntryOf(img, d, k));
            |HeldBy(img, d, k)| == if f in img.chains then |img.chains[f]| else 0
  {
    hide FirstCluster;
  }

  /** A rename costs one cluster if the new name fits neither over the old one in the same directory
      nor into free slots of its own, and nothing otherwise. */
  lemma MoveFreeTold(img: Image, from: Str, to: Str)
    requires ValidImage(img) && ResultOf(img, Move(from, to)) == Ok
    ensures from == to ==> FreeAfter(img, Move(from, to)) == |FreeClusters(img.fat)|
    ensures from != to ==>
              var l, l2 := Locate(img, from), Locate(img, to);
              && l.In? && l2.In? && Listed(img, l.dir, Fold(l.name)) && l2.dir in img.views && l2.dir in img.chains
              && var needed := RenameSlots(img, l.dir, Fold(l.name), l2.dir, l2.name);
                 FreeAfter(img, Move(from, to)) ==
                 |FreeClusters(img.fat)|
                 - if HasRun(SlotsOf(img, l2.dir), needed)
                      || (l.dir == l2.dir && needed <= img.views[l.dir][Fold(l.name)].lfns + 1) then 0 else 1
  {
    hide *;
    ResultCases(img, Move(from, to));
    FreeCases(img, Move(from, to));
    if from != to {
      var l, l2 := Locate(img, from), Locate(img, to);
      FreeOfMove(img, l.dir, Fold(l.name), l2.dir, l2.name);
    }
  }

  lemma FreeOfMove(img: Image, d: nat, k: Key, d2: nat, name: Str)
    requires Listed(img, d, k) && d2 in img.views && d2 in img.chains
    ensures d in img.views && k in img.views[d]
    ensures var needed := RenameSlots(img, d, k, d2, name);
            RenameGrowth(img, d, k, d2, name) ==
            if HasRun(SlotsOf(img, d2), needed) || (d == d2 && needed <= img.views[d][k].lfns + 1) then 0 else 1
  {
    hide HasRun, SlotsOf, RenameSlots;
  }
}
