/** What a laid-out tree registers: its chains, directories, owners and places, all inside the
    clusters allocated to it. */
module BuilderRegistry {
  import opened FatTables
  import opened FatDirectory
  import opened FatImage
  import opened FatMakeDir
  import opened BuilderNames
  import opened BuilderTree

  datatype Registry = Registry(chains: Chains, views: map<nat, View>, owner: map<nat, Owner>, paths: map<nat, seq<Key>>)

  ghost function Join(a: Registry, b: Registry): Registry {
    Registry(a.chains + b.chains, a.views + b.views, a.owner + b.owner, a.paths + b.paths)
  }

  const Nothing := Registry(map[], map[], map[], map[])

  /** An item that can be laid out from `at`. */
  ghost predicate FitsAt(item: Item, isRoot: bool, at: nat) {
    Nameable(item) && at >= 2 && at + Total(item, isRoot) <= MAX_CLUSTERS
  }

  lemma FolderFits(item: Item, isRoot: bool, at: nat)
    requires FitsAt(item, isRoot, at) && item.Folder?
    ensures Fitting(item.children, at + Need(item, isRoot)) && at < 0x1_0000_0000 && at >= 2
    ensures at + Total(item, isRoot) == at + Need(item, isRoot) + TotalOf(item.children)
  {
    hide NameableAll;
  }

  lemma HeadFits(items: seq<Item>, at: nat)
    requires Fitting(items, at) && items != [] && at >= 2
    ensures ShortName11(items[0].name).Some? && FitsAt(items[0], false, at)
            && Fitting(items[1..], at + Total(items[0], false))
    ensures at + TotalOf(items) == at + Total(items[0], false) + TotalOf(items[1..])
  {
    hide *;
    FittingHead(items, at);
    FirstTotal(items);
    FitsIs(items[0], at);
  }

  lemma FitsIs(item: Item, at: nat)
    ensures Nameable(item) && at >= 2 && at + Total(item, false) <= MAX_CLUSTERS ==> FitsAt(item, false, at)
  {
    hide Nameable, Total;
  }

  function FirstChildSlot(isRoot: bool): nat { if isRoot then 0 else 2 }

  /** The names in a folder: the dots, below the root, and the children. */
  ghost function FolderView(item: Item, isRoot: bool, at: nat, up: nat): View
    requires FitsAt(item, isRoot, at) && item.Folder? && up < 0x1_0000_0000
  {
    FolderFits(item, isRoot, at);
    (if isRoot then map[] else DotNames(at, up)) + ViewOf(item.children, at + Need(item, isRoot),
      FirstChildSlot(isRoot))
  }

  ghost function Own(item: Item, isRoot: bool, at: nat, up: nat, key: Key, path: seq<Key>): Registry
    requires FitsAt(item, isRoot, at) && up < 0x1_0000_0000
  {
    if Need(item, isRoot) == 0 then Nothing
    else Registry(map[at := Clusters(item, isRoot, at)],
                  if item.Folder? then map[at := FolderView(item, isRoot, at, up)] else map[],
                  if isRoot then map[] else map[at := Owner(up, key)],
                  if item.Folder? then map[at := path] else map[])
  }

  ghost function Reg(item: Item, isRoot: bool, at: nat, up: nat, key: Key, path: seq<Key>): Registry
    requires FitsAt(item, isRoot, at) && up < 0x1_0000_0000
    decreases item
  {
    match item
    case File(_, _) => Own(item, isRoot, at, up, key, path)
    case Folder(_, children) =>
      FolderFits(item, isRoot, at);
      Join(Own(item, isRoot, at, up, key, path), RegAll(children, at + Need(item, isRoot), at, path))
  }

  ghost function RegAll(items: seq<Item>, at: nat, dir: nat, path: seq<Key>): Registry
    requires Fitting(items, at) && at >= 2 && dir < 0x1_0000_0000
    decreases items
  {
    if items == [] then Nothing
    else
      HeadFits(items, at);
      var key := KeyOf(items[0].name);
      Join(Reg(items[0], false, at, dir, key, path + [key]), RegAll(items[1..], at + Total(items[0], false), dir, path))
  }

  // ---------------------------------------------------------------- ranges

  ghost predicate ChainIn(reg: Registry, lo: nat, hi: nat, h: nat)
    requires h in reg.chains
  {
    var n := |reg.chains[h]|;
    n >= 1 && lo <= h && h + n <= hi && reg.chains[h] == Stretch(h, n)
  }

  /** Everything registered starts in the clusters from `lo` to `hi`, and chains follow each
      other. */
  ghost predicate Ranged(reg: Registry, lo: nat, hi: nat) {
    && (forall h | h in reg.chains :: ChainIn(reg, lo, hi, h))
    && (forall h, k | h in reg.chains && k in reg.chains && h < k :: h + |reg.chains[h]| <= k)
    && reg.owner.Keys <= reg.chains.Keys && reg.views.Keys <= reg.chains.Keys && reg.paths.Keys == reg.views.Keys
  }

  lemma NothingRanged(lo: nat, hi: nat)
    ensures Ranged(Nothing, lo, hi)
  {
  }

  lemma OwnRanged(item: Item, isRoot: bool, at: nat, up: nat, key: Key, path: seq<Key>)
    requires FitsAt(item, isRoot, at) && up < 0x1_0000_0000
    ensures Ranged(Own(item, isRoot, at, up, key, path), at, at + Need(item, isRoot))
    ensures var reg := Own(item, isRoot, at, up, key, path);
            if isRoot && Need(item, isRoot) > 0 then reg.owner == map[] && reg.chains.Keys == {at}
              else reg.chains.Keys == reg.owner.Keys
  {
    hide FitsAt, FolderView;
  }

  lemma JoinRanged(a: Registry, lo: nat, mid: nat, b: Registry, hi: nat)
    requires Ranged(a, lo, mid) && Ranged(b, mid, hi) && lo <= mid <= hi
    ensures Ranged(Join(a, b), lo, hi)
  {
    var j := Join(a, b);
    forall h | h in j.chains ensures ChainIn(j, lo, hi, h) {
      if h in b.chains { assert ChainIn(b, mid, hi, h); } else { assert ChainIn(a, lo, mid, h); }
    }
    forall h, k | h in j.chains && k in j.chains && h < k ensures h + |j.chains[h]| <= k {
      assert h in a.chains ==> ChainIn(a, lo, mid, h);
      assert h in b.chains ==> ChainIn(b, mid, hi, h);
      assert k in a.chains ==> ChainIn(a, lo, mid, k);
      assert k in b.chains ==> ChainIn(b, mid, hi, k);
    }
  }

  lemma {:induction false} RegRanged(item: Item, isRoot: bool, at: nat, up: nat, key: Key, path: seq<Key>)
    requires FitsAt(item, isRoot, at) && up < 0x1_0000_0000 && (isRoot ==> item.Folder?)
    ensures Ranged(Reg(item, isRoot, at, up, key, path), at, at + Total(item, isRoot))
    ensures var reg := Reg(item, isRoot, at, up, key, path);
            if isRoot then reg.chains.Keys == reg.owner.Keys + {at} && at !in reg.owner
              else reg.chains.Keys == reg.owner.Keys
    decreases item
  {
    hide *;
    OwnRanged(item, isRoot, at, up, key, path);
    RegUnfolds(item, isRoot, at, up, key, path);
    if item.Folder? {
      FolderFits(item, isRoot, at);
      var mid := at + Need(item, isRoot);
      RegAllRanged(item.children, mid, at, path);
      var a, b := Own(item, isRoot, at, up, key, path), RegAll(item.children, mid, at, path);
      JoinRanged(a, at, mid, b, mid + TotalOf(item.children));
      JoinKeys(a, at, mid, b, mid + TotalOf(item.children), at);
    }
  }

  lemma RegUnfolds(item: Item, isRoot: bool, at: nat, up: nat, key: Key, path: seq<Key>)
    requires FitsAt(item, isRoot, at) && up < 0x1_0000_0000
    ensures item.Folder? ==>
              Need(item, isRoot) > 0 && Fitting(item.children, at + Need(item, isRoot))
              && at < 0x1_0000_0000 && at >= 2
    ensures Reg(item, isRoot, at, up, key, path) ==
            if item.Folder? then Join(Own(item, isRoot, at, up, key, path),
              RegAll(item.children, at + Need(item, isRoot), at, path))
            else Own(item, isRoot, at, up, key, path)
    ensures item.File? ==> Total(item, isRoot) == Need(item, isRoot)
  {
    hide FitsAt, Own, RegAll, Join, Fitting, Total, Need, NameableAll, Nameable;
    if item.Folder? { FolderFits(item, isRoot, at); }
    FileTotal(item, isRoot);
  }

  lemma FileTotal(item: Item, isRoot: bool)
    ensures item.File? ==> Total(item, isRoot) == Need(item, isRoot)
    ensures item.Folder? ==> Need(item, isRoot) > 0
  {
  }

  lemma RegAllUnfolds(items: seq<Item>, at: nat, dir: nat, path: seq<Key>)
    requires Fitting(items, at) && at >= 2 && dir < 0x1_0000_0000
    ensures items == [] ==> RegAll(items, at, dir, path) == Nothing && TotalOf(items) == 0
    ensures items != [] ==>
              && ShortName11(items[0].name).Some? && FitsAt(items[0], false, at)
                && Fitting(items[1..], at + Total(items[0], false))
              && TotalOf(items) == Total(items[0], false) + TotalOf(items[1..])
              && var key := KeyOf(items[0].name);
                 RegAll(items, at, dir, path) ==
                 Join(Reg(items[0], false, at, dir, key, path + [key]),
                   RegAll(items[1..], at + Total(items[0], false), dir, path))
  {
    hide FitsAt, Fitting, Reg, Join, KeyOf, ShortName11, Total, RegAll;
    if items != [] {
      HeadFits(items, at);
      RegAllMore(items, at, dir, path);
    } else {
      RegAllNone(at, dir, path);
    }
  }

  lemma RegAllNone(at: nat, dir: nat, path: seq<Key>)
    requires Fitting([], at) && at >= 2 && dir < 0x1_0000_0000
    ensures RegAll([], at, dir, path) == Nothing
  {
  }

  lemma RegAllMore(items: seq<Item>, at: nat, dir: nat, path: seq<Key>)
    requires Fitting(items, at) && at >= 2 && dir < 0x1_0000_0000 && items != []
    requires ShortName11(items[0].name).Some? && FitsAt(items[0], false, at)
    requires Fitting(items[1..], at + Total(items[0], false))
    ensures var key := KeyOf(items[0].name);
            RegAll(items, at, dir, path) ==
            Join(Reg(items[0], false, at, dir, key, path + [key]),
              RegAll(items[1..], at + Total(items[0], false), dir, path))
  {
    hide FitsAt, Fitting, Reg, Join, KeyOf, ShortName11, Total, TotalOf;
  }

  lemma {:induction false} RegAllRanged(items: seq<Item>, at: nat, dir: nat, path: seq<Key>)
    requires Fitting(items, at) && at >= 2 && dir < 0x1_0000_0000
    ensures Ranged(RegAll(items, at, dir, path), at, at + TotalOf(items))
    ensures RegAll(items, at, dir, path).chains.Keys == RegAll(items, at, dir, path).owner.Keys
    decreases items
  {
    hide *;
    RegAllUnfolds(items, at, dir, path);
    if items == [] {
      NothingRanged(at, at);
      NothingKeys();
    } else {
      var key, mid := KeyOf(items[0].name), at + Total(items[0], false);
      RegRanged(items[0], false, at, dir, key, path + [key]);
      RegAllRanged(items[1..], mid, dir, path);
      var a, b := Reg(items[0], false, at, dir, key, path + [key]), RegAll(items[1..], mid, dir, path);
      JoinRanged(a, at, mid, b, mid + TotalOf(items[1..]));
      JoinKeys(a, at, mid, b, mid + TotalOf(items[1..]), 0);
    }
  }

  lemma NothingKeys()
    ensures Nothing.chains.Keys == Nothing.owner.Keys
  {
  }

  lemma JoinKeys(a: Registry, lo: nat, mid: nat, b: Registry, hi: nat, h: nat)
    requires Ranged(a, lo, mid) && Ranged(b, mid, hi) && b.chains.Keys == b.owner.Keys
    ensures a.chains.Keys == a.owner.Keys ==> Join(a, b).chains.Keys == Join(a, b).owner.Keys
    ensures a.owner == map[] && a.chains.Keys == {h} ==>
              Join(a, b).chains.Keys == Join(a, b).owner.Keys + {h} && h !in Join(a, b).owner
  {
    hide *;
    ApartKeys(a, lo, mid, b, hi);
    JoinDomains(a, b);
    KeysApart(a.chains.Keys, b.chains.Keys, b.owner.Keys, h);
  }

  lemma KeysApart(a: set<nat>, b: set<nat>, c: set<nat>, h: nat)
    requires b == c && forall x | x in a :: x !in b
    ensures a == {h} ==> a + b == {} + c + {h} && h !in {} + c
  {
  }

  lemma JoinDomains(a: Registry, b: Registry)
    ensures Join(a, b).chains.Keys == a.chains.Keys + b.chains.Keys
            && Join(a, b).owner.Keys == a.owner.Keys + b.owner.Keys
    ensures a.owner == map[] ==> a.owner.Keys == {}
  {
  }

  // -------------------------------------------------------------- inclusion

  ghost predicate Submap<K, V>(a: map<K, V>, b: map<K, V>) {
    forall k | k in a :: k in b && b[k] == a[k]
  }

  /** All of `reg` is in the image's registry, and between `lo` and `hi` no other directory. */
  ghost predicate Embedded(reg: Registry, lo: nat, hi: nat, img: Image) {
    && Submap(reg.chains, img.chains) && Submap(reg.views, img.views) && Submap(reg.owner, img.owner)
      && Submap(reg.paths, img.paths)
    && forall d | d in img.views && lo <= d < hi :: d in reg.views
  }

  lemma EmbeddedParts(a: Registry, lo: nat, mid: nat, b: Registry, hi: nat, img: Image)
    requires Ranged(a, lo, mid) && Ranged(b, mid, hi) && lo <= mid <= hi && Embedded(Join(a, b), lo, hi, img)
    ensures Embedded(a, lo, mid, img) && Embedded(b, mid, hi, img)
  {
    ApartKeys(a, lo, mid, b, hi);
    var j := Join(a, b);
    forall d | d in img.views && lo <= d < mid ensures d in a.views {
      assert d in j.views;
      assert d in b.views ==> ChainIn(b, mid, hi, d);
    }
    forall d | d in img.views && mid <= d < hi ensures d in b.views {
      assert d in j.views;
      assert d in a.views ==> ChainIn(a, lo, mid, d);
    }
  }

  lemma ApartKeys(a: Registry, lo: nat, mid: nat, b: Registry, hi: nat)
    requires Ranged(a, lo, mid) && Ranged(b, mid, hi)
    ensures forall h | h in a.chains :: h !in b.chains
    ensures Submap(a.chains, Join(a, b).chains) && Submap(b.chains, Join(a, b).chains)
    ensures Submap(a.views, Join(a, b).views) && Submap(b.views, Join(a, b).views)
    ensures Submap(a.owner, Join(a, b).owner) && Submap(b.owner, Join(a, b).owner)
    ensures Submap(a.paths, Join(a, b).paths) && Submap(b.paths, Join(a, b).paths)
  {
    forall h | h in a.chains ensures h !in b.chains {
      assert ChainIn(a, lo, mid, h);
      assert h in b.chains ==> ChainIn(b, mid, hi, h);
    }
  }

  lemma ChainsApart(reg: Registry, lo: nat, hi: nat)
    requires Ranged(reg, lo, hi)
    ensures forall h, k | h in reg.chains && k in reg.chains && h != k :: Apart(reg.chains[h], reg.chains[k])
  {
    forall h, k | h in reg.chains && k in reg.chains && h != k ensures Apart(reg.chains[h], reg.chains[k]) {
      assert ChainIn(reg, lo, hi, h) && ChainIn(reg, lo, hi, k);
      StretchesApart(h, |reg.chains[h]|, k, |reg.chains[k]|);
    }
  }

  lemma StretchesApart(h: nat, n: nat, k: nat, m: nat)
    requires h + n <= k || k + m <= h
    ensures Apart(Stretch(h, n), Stretch(k, m))
  {
  }
}
