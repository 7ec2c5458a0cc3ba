/** What a path string refers to on a valid volume. */
module FatLookup {
  import opened Bytes
  import opened FatSlots
  import opened FatNames
  import opened FatTables
  import opened FatBlocks
  import opened FatDirectory
  import opened FatImage
  import opened FatMoves
  import opened Paths

  /** The outcome of following components: the directory itself, a name in one, or an error. */
  datatype Target = Itself(dir: nat) | Named(dir: nat, key: Key) | Error(result: Result)

  ghost function Walk(img: Image, d: nat, comps: seq<Str>): (t: Target)
    ensures t.Named? ==> Listed(img, t.dir, t.key)
    ensures t.Error? ==> t.result == InvalidName || t.result == NotFound || t.result == NotADirectory
    decreases |comps|
  {
    if comps == [] then Itself(d)
    else if !ValidName(comps[0]) then Error(InvalidName)
    else if !Listed(img, d, Fold(comps[0])) then Error(NotFound)
    else if |comps| == 1 then Target.Named(d, Fold(comps[0]))
    else if !IsDirectory(EntryOf(img, d, Fold(comps[0]))) then Error(NotADirectory)
    else Walk(img, FirstCluster(EntryOf(img, d, Fold(comps[0]))), comps[1..])
  }

  /** Walking stays on the volume and never ends at a dot entry. */
  lemma {:induction false} WalkStays(img: Image, d: nat, comps: seq<Str>)
    requires Linked(img) && d in img.views
    ensures var t := Walk(img, d, comps);
            match t
            case Itself(x) => comps == [] && x == d
            case Named(x, k) => !IsDot(k) && x in img.views && comps != [] && ValidName(comps[|comps| - 1])
              && k == Fold(comps[|comps| - 1])
            case Error(_) => true
    decreases |comps|
  {
    if comps != [] && ValidName(comps[0]) && Listed(img, d, Fold(comps[0])) {
      FoldDots(comps[0]);
      hide AllPlaced, AllOwners, AllEntries, ValidName, FirstCluster, IsDirectory;
      EntryKind(img, d, Fold(comps[0]));
      if |comps| > 1 && IsDirectory(EntryOf(img, d, Fold(comps[0]))) {
        WalkStays(img, FirstCluster(EntryOf(img, d, Fold(comps[0]))), comps[1..]);
      }
    }
  }

  /** Where a file operation works: in directory `dir` under `name`. */
  datatype Location = Fails(result: Result) | In(dir: nat, name: Str)

  ghost function LocateIn(img: Image, parent: Str, name: Str): (l: Location)
    ensures l.In? ==> ValidName(l.name)
  {
    if !ValidName(name) then Fails(InvalidName)
    else match Walk(img, img.root, Components(parent))
      case Itself(d) => In(d, name)
      case Named(d, k) =>
        if IsDirectory(EntryOf(img, d, k)) then In(FirstCluster(EntryOf(img, d, k)), name) else Fails(NotADirectory)
      case Error(r) => Fails(r)
  }

  /** Last slash of a path, or -1. */
  function LastSlash(s: Str): (i: int)
    ensures -1 <= i < |s| && (i >= 0 ==> s[i] == SLASH)
    ensures forall j | i < j < |s| :: s[j] != SLASH
  {
    if s == [] then -1 else if s[|s| - 1] == SLASH then |s| - 1 else LastSlash(s[..|s| - 1])
  }

  function ParentOf(path: Str): Str
    requires LastSlash(path) >= 0
  {
    if LastSlash(path) == 0 then [SLASH] else path[..LastSlash(path)]
  }

  function NameOf(path: Str): Str
    requires LastSlash(path) >= 0
  {
    path[LastSlash(path) + 1..]
  }

  predicate Splittable(path: Str) {
    && |path| >= 2 && path[0] == SLASH && path[|path| - 1] != SLASH
  }

  ghost function Locate(img: Image, path: Str): (l: Location)
    ensures l.In? ==> ValidName(l.name)
  {
    if !Splittable(path) then Fails(InvalidName)
    else
      assert LastSlash(path) >= 0;
      LocateIn(img, ParentOf(path), NameOf(path))
  }

  /** Splitting a path splits off its last component. */
  lemma SplitComponents(path: Str)
    requires Splittable(path)
    ensures LastSlash(path) >= 0 && NoSlash(NameOf(path)) && NameOf(path) != []
    ensures Components(path) == Components(ParentOf(path)) + [NameOf(path)]
  {
    var i := LastSlash(path);
    var name := NameOf(path);
    assert path == path[..i] + [SLASH] + name;
    assert NoSlash(name) by {
      assert forall j | 0 <= j < |name| :: name[j] == path[i + 1 + j];
    }
    SplitLast(path[..i], name);
    if i == 0 {
      assert path[..0] == [] && [SLASH][1..] == [];
      assert Components([]) == [] && Components([SLASH]) == [];
    }
  }

  lemma LocatedDir(img: Image, path: Str)
    requires Linked(img) && Locate(img, path).In?
    ensures Locate(img, path).dir in img.views && !IsDot(Fold(Locate(img, path).name))
  {
    hide AllPlaced, AllOwners, AllEntries, FirstCluster, IsDirectory, ValidName;
    WalkStays(img, img.root, Components(ParentOf(path)));
    var t := Walk(img, img.root, Components(ParentOf(path)));
    if t.Named? {
      EntryKind(img, t.dir, t.key);
    }
    NotDotName(Locate(img, path).name);
  }

  lemma NotDotName(name: Str)
    requires ValidName(name)
    ensures !IsDot(Fold(name)) && 0 !in name && name != [DOT] && name != [DOT, DOT] && |name| < NAME_CAPACITY
  {
    FoldDots(name);
  }

  // ------------------------------------------------------ sizes in clusters

  function ClustersFor(size: nat, bytes: nat): nat
    requires size > 0
  {
    if bytes == 0 then 0 else (bytes + size - 1) / size
  }

  lemma ClustersForCovers(size: nat, bytes: nat)
    requires size > 0
    ensures bytes <= ClustersFor(size, bytes) * size
    ensures forall n: nat | bytes <= n * size :: ClustersFor(size, bytes) <= n
    ensures ClustersFor(size, bytes) == 0 <==> bytes == 0
  {
    if bytes > 0 {
      var q := (bytes + size - 1) / size;
      DivCeil(size, bytes, q);
    }
  }

  lemma DivCeil(size: nat, bytes: nat, q: nat)
    requires size > 0 && bytes > 0 && q == (bytes + size - 1) / size
    ensures bytes <= q * size && q > 0
    ensures forall n: nat | bytes <= n * size :: q <= n
  {
    assert q * size <= bytes + size - 1 < q * size + size;
    forall n: nat | bytes <= n * size ensures q <= n {
      if n < q {
        Product(n + 1, q, size);
      }
    }
    assert q == 0 ==> q * size == 0;
  }
}
