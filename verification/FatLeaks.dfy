/** Where a full volume loses clusters: the inputs at which an operation that fails keeps what it took,
    and a rename that is refused for its case alone. */
module FatLeaks {
  import opened Bytes
  import opened FatSlots
  import opened FatTables
  import opened FatBlocks
  import opened FatStore
  import opened FatImage
  import opened FatLookup
  import opened FatNaming
  import opened FatWrites
  import opened FatMakeDir
  import opened FatRename
  import opened FatRuns
  import opened Paths

  lemma RootA(img: Image)
    requires ValidImage(img)
    ensures Locate(img, [0x2F, 0x61]) == In(img.root, [0x61]) && Fold([0x61]) == [0x41] && !IsDot([0x41])
    ensures img.size > 0 && img.root in img.views && img.root in img.chains
  {
    LocatesA(img);
    Letters();
    LocatedPlace(img, [0x2F, 0x61]);
    hide ValidImage, Locate, Tree;
  }

  /** One free cluster and a root directory without a free slot: writing one byte to "/a" fails, and
      the cluster that was free is free no more although no name refers to it. */
  lemma LostData(img: Image, byte: Byte)
    requires ValidImage(img) && |FreeClusters(img.fat)| == 1
    requires img.root in img.views && img.root in img.chains && !Listed(img, img.root, [0x41])
    requires !HasRun(SlotsOf(img, img.root), SlotsNeeded(img, img.root, [0x61]))
    ensures var op := Write([0x2F, 0x61], [byte], false);
            ResultOf(img, op) == NoSpace && FreeAfter(img, op) == 0
  {
    hide *;
    RootA(img);
    var op := Write([0x2F, 0x61], [byte], false);
    FreeCases(img, op);
    ResultCases(img, op);
    OneCluster(img.size);
    FullForNew(img, img.root, [0x61], 1, false);
  }

  /** Room for the data of a new name, but not for its entry: all is taken. */
  lemma FullForNew(img: Image, d: nat, name: Str, length: nat, append: bool)
    requires img.size > 0 && d in img.views && d in img.chains && !Listed(img, d, Fold(name))
    requires !HasRun(SlotsOf(img, d), SlotsNeeded(img, d, name))
    requires |FreeClusters(img.fat)| == ClustersFor(img.size, length)
    ensures WriteAtResult(img, d, name, length, append) == NoSpace && FreeAfterWrite(img, d, name, length, append) == 0
  {
    hide HasRun, SlotsOf, SlotsNeeded, FreeClusters, ClustersFor, Fold;
  }

  lemma OneCluster(size: nat)
    requires size > 0
    ensures ClustersFor(size, 1) == 1
  {
  }

  /** The same volume: creating the directory "/a" fails, and its cluster is not given back. */
  lemma LostDirectory(img: Image)
    requires ValidImage(img) && |FreeClusters(img.fat)| == 1
    requires img.root in img.views && img.root in img.chains && !Listed(img, img.root, [0x41])
    requires !HasRun(SlotsOf(img, img.root), SlotsNeeded(img, img.root, [0x61]))
    ensures ResultOf(img, Make([0x2F, 0x61])) == NoSpace && FreeAfter(img, Make([0x2F, 0x61])) == 0
  {
    hide *;
    RootA(img);
    var op := Make([0x2F, 0x61]);
    FreeCases(img, op);
    ResultCases(img, op);
    MakeDirAtCases(img, img.root, [0x61]);
    FullForMake(img, img.root, [0x61]);
  }

  lemma FullForMake(img: Image, d: nat, name: Str)
    requires d in img.views && d in img.chains
    ensures MakeDirAtResult(img, d, name) == NoSpace ==> FreeAfterMake(img, d, name) == 0
  {
    hide MakeDirAtResult, FreeClusters, Growth, SlotsNeeded;
  }

  /** One free cluster: appending two clusters' worth to the file "/a" fails, and the file's chain keeps
      the one there was. */
  lemma KeptByFile(img: Image, data: seq<Byte>)
    requires ValidImage(img) && |FreeClusters(img.fat)| == 1 && |data| == 2 * img.size
    requires Listed(img, img.root, [0x41]) && !IsDirectory(EntryOf(img, img.root, [0x41]))
    requires HeldBy(img, img.root, [0x41]) != []
    ensures var op := Write([0x2F, 0x61], data, true);
            ResultOf(img, op) == NoSpace && FreeAfter(img, op) == 0
  {
    hide *;
    RootA(img);
    var op := Write([0x2F, 0x61], data, true);
    FreeCases(img, op);
    ResultCases(img, op);
    DemandCases(img, img.root, [0x61], |data|, true);
    HoldsBytes(img, img.root, [0x41], data);
    KeepsAll(img, img.root, [0x61], |data|, true);
  }

  lemma HoldsBytes(img: Image, d: nat, k: Key, data: seq<Byte>)
    requires ValidImage(img) && Listed(img, d, k) && !IsDot(k) && !IsDirectory(EntryOf(img, d, k)) && img.size > 0
    requires HeldBy(img, d, k) != [] && |data| == 2 * img.size
    ensures ClustersFor(img.size, Front(img, d, k, true) + |data|) == Occupied(img, d, k) + 2
  {
    hide *;
    FileChain(img, d, k);
    OccupiedIs(img, d, k);
    ClustersForCovers(img.size, Size(EntryOf(img, d, k)));
    if Size(EntryOf(img, d, k)) > 0 { TwoMore(img.size, Size(EntryOf(img, d, k))); }
  }

  lemma OccupiedIs(img: Image, d: nat, k: Key)
    requires Listed(img, d, k) && !IsDirectory(EntryOf(img, d, k)) && img.size > 0
    ensures Front(img, d, k, true) == Size(EntryOf(img, d, k))
    ensures Occupied(img, d, k) == ClustersFor(img.size, Size(EntryOf(img, d, k)))
    ensures HeldBy(img, d, k) == OldChain(img.chains, FirstCluster(EntryOf(img, d, k)))
  {
    hide ClustersFor, IsDirectory, Size, FirstCluster;
  }

  lemma KeepsAll(img: Image, d: nat, name: Str, length: nat, append: bool)
    requires img.size > 0 && d in img.views && d in img.chains && HeldBy(img, d, Fold(name)) != []
    ensures WriteAtResult(img, d, name, length, append) == NoSpace ==> FreeAfterWrite(img, d, name, length, append) == 0
  {
    hide WriteAtResult, HeldBy, DataNeed, Fold, FreeClusters;
  }

  lemma TwoMore(size: nat, n: nat)
    requires size > 0 && n > 0
    ensures ClustersFor(size, n + 2 * size) == ClustersFor(size, n) + 2
  {
    var x := n + size - 1;
    var q := x / size;
    assert q * size <= x < q * size + size;
    assert (q + 2) * size == q * size + 2 * size;
    Quotient(x + 2 * size, q + 2, size);
  }

  lemma Quotient(x: nat, q: nat, size: nat)
    requires size > 0 && q * size <= x < q * size + size
    ensures x / size == q
  {
    var p := x / size;
    assert p * size <= x < p * size + size;
    if p < q { Product(p + 1, q, size); }
    if q < p { Product(q + 1, p, size); }
  }

  /** Renaming "/a" to "/A" is refused wherever that name is listed. */
  lemma CaseOnlyExample(img: Image)
    requires ValidImage(img) && Listed(img, img.root, [0x41])
    ensures RenameResult(img, [0x2F, 0x61], [0x2F, 0x41]) == AlreadyExists
  {
    var oldPath: Str, newPath: Str := [0x2F, 0x61], [0x2F, 0x41];
    RootA(img);
    LocatesUpperA(img);
    Letters();
    assert LastSlash(newPath) == 0;
    assert ParentOf(newPath) == [0x2F];
    assert !DescendantOf([0x2F], oldPath);
    hide ValidImage, Locate, RenameResult, Fold, DescendantOf;
    CaseOnlyRefused(img, oldPath, newPath);
  }

  lemma LocatesUpperA(img: Image)
    ensures Locate(img, [0x2F, 0x41]) == In(img.root, [0x41])
  {
    Letters();
    var path: Str := [0x2F, 0x41];
    assert LastSlash(path) == 0;
    assert NameOf(path) == [0x41] && [SLASH][1..] == [];
    assert Components([SLASH]) == Components([]) == [];
  }
}
