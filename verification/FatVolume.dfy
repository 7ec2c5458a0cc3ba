/** The mounted FAT32 volume: what it holds, and the steps its operations are made of. */
module FatVolume {
  import opened Bytes
  import opened FatSlots
  import opened FatNames
  import opened FatAliases
  import opened FatTables
  import opened FatBlocks
  import opened FatDirectory
  import opened FatStore
  import opened FatImage
  import opened FatMoves
  import opened FatLookup
  import opened Paths

  const MAX_FILE_SIZE := 0xFFFF_FFFF - MAX_CLUSTER_SIZE   // above this the 32-bit rounding wraps

  /** How a valid name would be stored: under its 8.3 form or with long-name pieces. */
  ghost function PiecesFor(name: Str, used: set<Raw>): nat {
    if FitsShort(name) && ShortOf(name) !in used then 0 else LfnCount(name)
  }

  // ------------------------------------------------------- name entries

  /** Name entries ready to be written: the slots of `name` for an entry of the given kind. */
  ghost predicate EntriesFor(entries: seq<Slot>, name: Str, attributes: Byte, first: nat, size: nat, used: set<Raw>) {
    && 0 < |entries| <= MAX_NAME_ENTRIES
    && (var e := entries[|entries| - 1];
        && StoredAs(name, used, RawName(e), |entries| - 1)
        && Attributes(e) == attributes && FirstCluster(e) == first && Size(e) == size
        && entries == NameSlots(name, |entries| - 1, e))
    && |entries| == PiecesFor(name, used) + 1
  }

  /** `build_name_entries`: fails only for invalid names; the alias search ends, by pigeonhole,
      within one try more than there are names. */
  method BuildNameEntries(store: Store, first: U32, name: Str, attributes: Byte, cluster: nat, size: nat,
                          ignore: Option<Raw>, ghost cs: seq<nat>, ghost view: View)
    returns (r: Result, entries: seq<Slot>)
    requires store.Valid() && store.Holds(cs) && cs[0] == first && ValidDirectory(store.All(cs), view)
    requires cluster < 0x1_0000_0000 && size < 0x1_0000_0000 && |view| + 2 < ALIAS_LIMIT
    ensures r == if ValidName(name) then Ok else InvalidName
    ensures r == Ok ==> EntriesFor(entries, name, attributes, cluster, size, Others(view, ignore))
  {
    entries := [];
    var valid := ValidateLongName(name);
    if !valid {
      return InvalidName, [];
    }
    var raw, lfns := ChooseShortName(store, first, name, ignore, cs, view);
    StoredStart(name, Others(view, ignore), raw, lfns);
    if lfns + 1 > MAX_NAME_ENTRIES {
      return InvalidName, [];
    }
    entries := FillNameEntries(name, ShortEntry(raw, attributes, cluster, size), lfns);
    r := Ok;
  }

  ghost function Others(view: View, ignore: Option<Raw>): set<Raw> {
    match ignore
    case None => UsedNames(view)
    case Some(raw) => UsedNames(view) - {raw}
  }

  lemma {:induction false} UsedNamesSize(view: View)
    ensures |UsedNames(view)| <= |view|
    decreases |view|
  {
    if view != map[] {
      var k :| k in view;
      var rest := view - {k};
      UsedNamesSize(rest);
      var raw := RawName(view[k].entry);
      hide RawName;
      forall x | x in view ensures RawName(view[x].entry) in UsedNames(rest) + {raw} {
        if x != k { assert x in rest && rest[x] == view[x]; }
      }
      SubsetSize(UsedNames(view), UsedNames(rest) + {raw});
    }
  }

  method ChooseShortName(store: Store, first: U32, name: Str, ignore: Option<Raw>, ghost cs: seq<nat>, ghost view: View)
    returns (raw: Raw, lfns: nat)
    requires store.Valid() && store.Holds(cs) && cs[0] == first && ValidDirectory(store.All(cs), view)
    requires ValidName(name) && |view| + 2 < ALIAS_LIMIT
    ensures StoredAs(name, Others(view, ignore), raw, lfns) && lfns == PiecesFor(name, Others(view, ignore))
  {
    hide ValidDirectory, DirSlots, IsChain, FitsShort, ShortOf, Alias, UsedNames;
    var short := MakeShortName(name);
    if short.Some? {
      var taken := store.ShortNameExists(first, short.value, ignore, cs, view);
      if !taken {
        return short.value, 0;
      }
    }
    raw := SearchAlias(store, first, name, ignore, cs, view);
    lfns := LfnCount(name);
  }

  method SearchAlias(store: Store, first: U32, name: Str, ignore: Option<Raw>, ghost cs: seq<nat>, ghost view: View)
    returns (raw: Raw)
    requires store.Valid() && store.Holds(cs) && cs[0] == first && ValidDirectory(store.All(cs), view)
    requires ValidName(name) && |view| + 2 < ALIAS_LIMIT
    ensures raw !in Others(view, ignore)
    ensures exists o: nat ::
            1 <= o < ALIAS_LIMIT && raw == Alias(name, o) && AliasesUpTo(name, o - 1) <= Others(view, ignore)
  {
    hide ValidDirectory, DirSlots, IsChain, Alias, UsedNames, ValidName, AliasesUpTo;
    ghost var used := Others(view, ignore);
    OthersSize(view, ignore);
    AliasesStart(name);
    var ordinal := 1;
    raw := BuildShortAlias(name, ordinal);
    var taken := store.ShortNameExists(first, raw, ignore, cs, view);
    while taken
      invariant 1 <= ordinal <= |view| + 1 && raw == Alias(name, ordinal)
      invariant AliasesUpTo(name, ordinal - 1) <= used
      invariant taken == (raw in used)
      decreases |view| + 2 - ordinal
    {
      AliasesStep(name, ordinal);
      AliasAvailable(name, used, ordinal);
      ordinal := ordinal + 1;
      raw := BuildShortAlias(name, ordinal);
      taken := store.ShortNameExists(first, raw, ignore, cs, view);
    }
  }

  lemma OthersSize(view: View, ignore: Option<Raw>)
    ensures |Others(view, ignore)| <= |view|
    ensures forall raw :: raw in Others(view, ignore) <==> raw in UsedNames(view) && ignore != Some(raw)
  {
    UsedNamesSize(view);
    SubsetSize(Others(view, ignore), UsedNames(view));
  }

  lemma AliasesStart(name: Str)
    ensures AliasesUpTo(name, 0) == {}
  {
  }

  method FillNameEntries(name: Str, entry: Slot, lfns: nat) returns (entries: seq<Slot>)
    requires lfns < MAX_NAME_ENTRIES
    ensures entries == NameSlots(name, lfns, entry)
  {
    hide LfnSlot;
    entries := [];
    var checksum := Checksum(RawName(entry));
    for i := 0 to lfns
      invariant entries == NameSlots(name, lfns, entry)[..i]
    {
      entries := entries + [LfnSlot(name, lfns - i, i == 0, checksum)];
    }
    entries := entries + [entry];
  }

  // ------------------------------------------------------- the volume

  datatype DirectoryRef = DirectoryRef(isRoot: bool, first: U32)

  class Volume {
    const store: Store
    const root: U32
    ghost var chains: Chains
    ghost var views: map<nat, View>
    ghost var owner: map<nat, Owner>
    ghost var paths: map<nat, seq<Key>>

    /** The volume as a value: what is stored, and the registry it stands for. */
    ghost function Now(): Image
      reads this, store.disk, store.table.entries
    {
      Image(store.size, root, store.table.View(), store.disk[..], chains, views, owner, paths)
    }

    ghost predicate Valid()
      reads this, store.disk, store.table.entries
    {
      store.Valid() && ValidImage(Now())
    }

    /** Directories stay below the number of names the alias digits can tell apart. */
    ghost predicate SmallDirectories()
      reads this
    {
      forall d | d in views :: |views[d]| + 3 < ALIAS_LIMIT
    }

    constructor (store: Store, root: U32, ghost img: Image)
      requires store.Valid() && ValidImage(img)
      requires img.size == store.size && img.root == root && img.fat == store.table.View() && img.disk == store.disk[..]
      ensures Valid() && Now() == img && this.store == store && this.root == root
    {
      this.store, this.root := store, root;
      chains, views, owner, paths := img.chains, img.views, img.owner, img.paths;
    }

    /** A directory's chain as the store's walks want it. */
    lemma DirFacts(d: nat)
      requires Valid() && d in views
      ensures store.Valid() && d in chains && d < 0x1_0000_0000 && store.Holds(chains[d]) && |chains[d]| > 0
              && chains[d][0] == d
      ensures store.All(chains[d]) == SlotsOf(Now(), d) && ValidDirectory(store.All(chains[d]), views[d])
    {
      hide Linked, ValidDirectory, DirSlots;
      var img := Now();
      assert SlotsOk(img, d);
      assert ChainAt(img.fat, img.chains, d);
      assert LinkAt(img.fat, img.chains[d], 0);
    }

    /** Takes over a registry that fits what is stored. */
    ghost method Adopt(img: Image)
      requires store.Valid() && ValidImage(img)
      requires img.size == store.size && img.root == root && img.fat == store.table.View() && img.disk == store.disk[..]
      modifies this
      ensures Valid() && Now() == img
    {
      chains, views, owner, paths := img.chains, img.views, img.owner, img.paths;
    }

    lemma Parts()
      requires Valid()
      ensures store.Valid() && ValidImage(Now()) && store.disk.Length == store.table.entries.Length <= MAX_CLUSTERS
    {
    }

    method FindIn(first: U32, name: Str) returns (r: Result, ref: EntryRef)
      requires Valid() && first as nat in views
      ensures r == if Listed(Now(), first, Fold(name)) then Ok else NotFound
      ensures r == Ok ==> ref == RefOf(views[first][Fold(name)])
    {
      hide *;
      DirFacts(first);
      r, ref := store.FindEntry(first, name, chains[first], views[first]);
      ListedMeans(first, Fold(name));
    }

    lemma ListedMeans(d: nat, k: Key)
      requires d in views
      ensures Listed(Now(), d, k) <==> k in views[d]
      ensures k in views[d] ==> EntryOf(Now(), d, k) == views[d][k].entry
    {
    }

    // ---------------------------------------------------------- paths

    /** `resolve_path`: component by component from the root. */
    method ResolvePath(path: Str) returns (r: Result, isRoot: bool, entry: Slot)
      requires Valid()
      ensures match Walk(Now(), root, Components(path))
              case Itself(_) => r == Ok && isRoot
              case Named(d, k) => r == Ok && !isRoot && entry == EntryOf(Now(), d, k)
              case Error(e) => r == e
    {
      RootIsDirectory();
      hide *;
      WholePath(path);
      WalkEmpty(Now(), root);
      var cursor := SkipFrom(path, 0);
      LastComponent(path, cursor);
      if cursor == |path| {
        return Ok, true, ZeroSlot;
      }
      ghost var all := Components(path);
      var first: U32 := root;
      r, isRoot, entry := Ok, false, ZeroSlot;
      ghost var t := Target.Itself(root);
      while cursor < |path|
        invariant r == Ok && cursor <= |path|
        invariant cursor < |path| ==>
                    path[cursor] != SLASH && first as nat in views
                      && Walk(Now(), root, all) == Walk(Now(), first, Components(path[cursor..]))
        invariant cursor == |path| ==>
                    t.Named? && Listed(Now(), t.dir, t.key) && Walk(Now(), root, all) == t
                      && entry == EntryOf(Now(), t.dir, t.key)
        decreases |path| - cursor
      {
        r, entry, cursor, t := ResolveOne(path, cursor, first);
        if r != Ok {
          return;
        }
        first := FirstCluster(entry);
      }
    }

    /** One component of a path, and whether the next can follow. */
    method ResolveOne(path: Str, cursor: nat, first: U32) returns (r: Result, entry: Slot, next: nat, ghost t: Target)
      requires Valid() && cursor < |path| && path[cursor] != SLASH && first as nat in views
      ensures r != Ok ==> Walk(Now(), first, Components(path[cursor..])) == Error(r)
      ensures cursor < next <= |path|
      ensures r == Ok && next < |path| ==>
                && path[next] != SLASH && FirstCluster(entry) in views
                && Walk(Now(), first, Components(path[cursor..])) == Walk(Now(), FirstCluster(entry),
                  Components(path[next..]))
      ensures r == Ok && next == |path| ==>
                && t.Named? && Listed(Now(), t.dir, t.key) && entry == EntryOf(Now(), t.dir, t.key)
                && Walk(Now(), first, Components(path[cursor..])) == t
    {
      hide *;
      var len := CountHead(path, cursor);
      NextComponent(path, cursor, len);
      var c := path[cursor..cursor + len];
      t := Target.Named(first, Fold(c));
      next := SkipFrom(path, cursor + len);
      LastComponent(path, next);
      WalkStep(Now(), first, Components(path[cursor..]));
      r, entry := FindComponent(first, c);
      if r != Ok {
        return;
      }
      if next < |path| {
        if !IsDirectory(entry) {
          r := NotADirectory;
          return;
        }
        NotDotName(c);
        StepInto(first, Fold(c));
      }
    }

    method FindComponent(first: U32, component: Str) returns (r: Result, entry: Slot)
      requires Valid() && first as nat in views
      ensures r == if !ValidName(component) then InvalidName
                   else if !Listed(Now(), first, Fold(component)) then NotFound else Ok
      ensures r == Ok ==> entry == EntryOf(Now(), first, Fold(component))
    {
      entry := ZeroSlot;
      if |component| >= NAME_CAPACITY {
        return InvalidName, entry;
      }
      var valid := ValidateLongName(component);
      if !valid {
        return InvalidName, entry;
      }
      hide *;
      var ref;
      r, ref := FindIn(first, component);
      ListedMeans(first, Fold(component));
      if r == Ok {
        RefEntry(views[first][Fold(component)]);
        entry := ref.entry;
      }
    }

    lemma StepInto(d: nat, k: Key)
      requires Valid() && Listed(Now(), d, k) && !IsDot(k) && IsDirectory(EntryOf(Now(), d, k))
      ensures FirstCluster(EntryOf(Now(), d, k)) in views
    {
      hide Storage, Linked, AllSlots, FirstCluster, IsDirectory;
      EntryKind(Now(), d, k);
    }

    lemma RootIsDirectory()
      requires Valid()
      ensures root as nat in views
    {
      hide Storage, AllSlots, AllPlaced, AllOwners, AllEntries;
    }
  }

  lemma RefEntry(g: Group)
    ensures RefOf(g).entry == g.entry && RefOf(g).index == g.start + g.lfns == g.Last() && RefOf(g).lfns == g.lfns
  {
  }

  lemma WalkEmpty(img: Image, d: nat)
    ensures Walk(img, d, []) == Target.Itself(d)
  {
  }

  /** One unrolling of the walk. */
  lemma WalkStep(img: Image, d: nat, comps: seq<Str>)
    requires comps != []
    ensures var c, k := comps[0], Fold(comps[0]);
            Walk(img, d, comps) ==
            if !ValidName(c) then Error(InvalidName)
            else if !Listed(img, d, k) then Error(NotFound)
            else if comps[1..] == [] then Target.Named(d, k)
            else if !IsDirectory(EntryOf(img, d, k)) then Error(NotADirectory)
            else Walk(img, FirstCluster(EntryOf(img, d, k)), comps[1..])
  {
    hide ValidName, FirstCluster, IsDirectory;
  }

  lemma LastComponent(path: Str, next: nat)
    requires next <= |path| && (next < |path| ==> path[next] != SLASH)
    ensures Components(path[next..]) == [] <==> next == |path|
  {
    if next == |path| {
      assert path[next..] == [];
    } else {
      assert path[next..][0] != SLASH;
    }
  }
}
