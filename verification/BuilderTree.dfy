/** The source tree and its place on the disk: which clusters each file and folder gets, and what
    entries its folder lists. */
module BuilderTree {
  import opened Bytes
  import opened FatSlots
  import opened FatNames
  import opened FatTables
  import opened FatDirectory
  import opened FatImage
  import opened BuilderNames

  const SECTOR := 512
  const PER_SECTOR := 16

  /** What the source directory holds. */
  datatype Item = File(name: Str, data: seq<Byte>) | Folder(name: Str, children: seq<Item>)

  // ------------------------------------------------------------- allocation

  /** Clusters of the item itself: enough for its bytes, or for its entries and, below the root,
      the two dots; a folder has at least one. */
  function Need(item: Item, isRoot: bool): (n: nat)
    ensures item.Folder? ==> n >= 1
  {
    match item
    case File(_, data) => (|data| + SECTOR - 1) / SECTOR
    case Folder(_, children) =>
      var entries := |children| + if isRoot then 0 else 2;
      if entries == 0 then 1 else (entries + PER_SECTOR - 1) / PER_SECTOR
  }

  /** Clusters of the item and everything below it. */
  function Total(item: Item, isRoot: bool): (n: nat)
    ensures n >= Need(item, isRoot)
  {
    match item
    case File(_, _) => Need(item, isRoot)
    case Folder(_, children) => Need(item, isRoot) + TotalOf(children)
  }

  function TotalOf(items: seq<Item>): nat {
    if items == [] then 0 else Total(items[0], false) + TotalOf(items[1..])
  }

  /** Consecutive clusters. */
  function Stretch(at: nat, n: nat): (cs: seq<nat>)
    ensures |cs| == n && forall i | 0 <= i < n :: cs[i] == at + i
  {
    seq(n, i requires 0 <= i < n => at + i)
  }

  /** The clusters of the item itself when it is allocated from `at` on. */
  function Clusters(item: Item, isRoot: bool, at: nat): (cs: seq<nat>)
    ensures |cs| == Need(item, isRoot)
  {
    Stretch(at, Need(item, isRoot))
  }

  /** Every name is a short name and no folder has one twice. */
  ghost predicate Nameable(item: Item) {
    item.Folder? ==> NameableAll(item.children)
  }

  ghost predicate NameableAll(items: seq<Item>) {
    items != [] ==>
      && ShortName11(items[0].name).Some? && Nameable(items[0]) && NameableAll(items[1..])
      && forall i | 1 <= i < |items| :: ShortName11(items[i].name) != ShortName11(items[0].name)
  }

  // ------------------------------------------------------------------ entries

  /** The first cluster an entry records: none for an empty file. */
  function FirstOf(item: Item, at: nat): nat {
    if Need(item, false) == 0 then 0 else at
  }

  function SizeOf(item: Item): nat {
    if item.File? then |item.data| else 0
  }

  /** `pack_dir_entry`, as the directory writer calls it. */
  function EntryFor(item: Item, at: nat): (e: Slot)
    requires ShortName11(item.name).Some? && at < 0x1_0000_0000 && SizeOf(item) < 0x1_0000_0000
    ensures RawName(e) == ShortName11(item.name).value && FirstCluster(e) == FirstOf(item, at)
            && Size(e) == SizeOf(item)
    ensures Attributes(e) == if item.Folder? then ATTR_DIRECTORY else ATTR_ARCHIVE
  {
    ShortEntry(ShortName11(item.name).value, if item.Folder? then ATTR_DIRECTORY
      else ATTR_ARCHIVE, FirstOf(item, at), SizeOf(item))
  }

  /** All the items fit the fields of an entry when laid out from `at`. */
  ghost predicate Fitting(items: seq<Item>, at: nat) {
    && NameableAll(items) && at + TotalOf(items) <= MAX_CLUSTERS
  }

  lemma FittingHead(items: seq<Item>, at: nat)
    requires Fitting(items, at) && items != []
    ensures ShortName11(items[0].name).Some? && at < 0x1_0000_0000 && SizeOf(items[0]) < 0x1_0000_0000
    ensures at + Total(items[0], false) <= MAX_CLUSTERS && Nameable(items[0])
    ensures Fitting(items[1..], at + Total(items[0], false))
  {
    FileSize(items[0]);
  }

  lemma FileSize(item: Item)
    ensures item.File? ==> |item.data| <= Need(item, false) * SECTOR
    ensures item.File? && |item.data| > 0 ==> Need(item, false) > 0
  {
  }

  /** No cluster more than the bytes or the entries take. */
  lemma NeedExact(item: Item, isRoot: bool)
    ensures item.File? ==>
              Need(item, isRoot) * 512 >= |item.data|
                && (item.data != [] ==> (Need(item, isRoot) - 1) * 512 < |item.data|)
              && (item.data == [] ==> Need(item, isRoot) == 0)
    ensures item.Folder? ==>
              var entries := |item.children| + if isRoot then 0 else 2;
              Need(item, isRoot) * 16 >= entries && (Need(item, isRoot) == 1 || (Need(item, isRoot) - 1) * 16 < entries)
  {
  }

  function EntriesOf(items: seq<Item>, at: nat): (es: seq<Slot>)
    requires Fitting(items, at)
    ensures |es| == |items|
  {
    if items == [] then []
    else
      FittingHead(items, at);
      [EntryFor(items[0], at)] + EntriesOf(items[1..], at + Total(items[0], false))
  }

  /** The names a folder's entries stand for, from slot `base` on. */
  ghost function ViewOf(items: seq<Item>, at: nat, base: nat): View
    requires Fitting(items, at)
  {
    if items == [] then map[]
    else
      FittingHead(items, at);
      ViewOf(items[1..], at + Total(items[0], false), base + 1)[KeyOf(items[0].name) := GroupFor(items[0], at, base)]
  }

  ghost function GroupFor(item: Item, at: nat, base: nat): Group
    requires ShortName11(item.name).Some? && at < 0x1_0000_0000 && SizeOf(item) < 0x1_0000_0000
  {
    Group(base, 0, FormatShort(ShortName11(item.name).value), EntryFor(item, at))
  }

  /** Where the clusters of child `i` start. */
  function StartOf(items: seq<Item>, at: nat, i: nat): nat
    requires i <= |items|
  {
    if i == 0 then at else StartOf(items[1..], at + Total(items[0], false), i - 1)
  }

  lemma {:induction false} StartBound(items: seq<Item>, at: nat, i: nat)
    requires i < |items| && Fitting(items, at)
    ensures StartOf(items, at, i) + Total(items[i], false) <= at + TotalOf(items) && at <= StartOf(items, at, i)
    ensures ShortName11(items[i].name).Some? && Nameable(items[i]) && SizeOf(items[i]) < 0x1_0000_0000
  {
    hide *;
    FittingHead(items, at);
    FirstTotal(items);
    StartUnfolds(items, at, i);
    if i > 0 { StartBound(items[1..], at + Total(items[0], false), i - 1); }
  }

  lemma FirstTotal(items: seq<Item>)
    requires items != []
    ensures TotalOf(items) == Total(items[0], false) + TotalOf(items[1..])
  {
    hide Total;
  }

  /** Different children have different keys. */
  lemma {:induction false} KeysDiffer(items: seq<Item>, i: nat, j: nat)
    requires NameableAll(items) && i < j < |items|
    ensures ShortName11(items[i].name).Some? && ShortName11(items[j].name).Some?
            && KeyOf(items[i].name) != KeyOf(items[j].name)
  {
    hide *;
    NamedTail(items);
    AllNamed(items, i);
    AllNamed(items, j);
    if i == 0 {
      SameKeySameName(items[0].name, items[j].name);
    } else {
      KeysDiffer(items[1..], i - 1, j - 1);
    }
  }

  lemma NamedTail(items: seq<Item>)
    requires NameableAll(items) && items != []
    ensures NameableAll(items[1..]) && ShortName11(items[0].name).Some? && Nameable(items[0])
    ensures forall i | 1 <= i < |items| :: ShortName11(items[i].name) != ShortName11(items[0].name)
  {
    hide ShortName11, Nameable;
  }

  lemma SameKeySameName(a: Str, b: Str)
    requires ShortName11(a).Some? && ShortName11(b).Some?
    ensures KeyOf(a) == KeyOf(b) ==> ShortName11(a) == ShortName11(b)
  {
    if KeyOf(a) == KeyOf(b) { RawsDiffer(a, b); }
  }

  lemma {:induction false} AllNamed(items: seq<Item>, i: nat)
    requires NameableAll(items) && i < |items|
    ensures ShortName11(items[i].name).Some? && Nameable(items[i])
  {
    if i > 0 { AllNamed(items[1..], i - 1); }
  }

  /** Child `i` is listed at its key, in slot `base + i`, and nothing else is listed. */
  lemma {:induction false} ViewHas(items: seq<Item>, at: nat, base: nat, i: nat)
    requires Fitting(items, at) && i < |items|
    ensures ShortName11(items[i].name).Some? && StartOf(items, at, i) < 0x1_0000_0000
            && SizeOf(items[i]) < 0x1_0000_0000
    ensures KeyOf(items[i].name) in ViewOf(items, at, base)
    ensures ViewOf(items, at, base)[KeyOf(items[i].name)] == GroupFor(items[i], StartOf(items, at, i), base + i)
  {
    hide *;
    StartBound(items, at, i);
    FittingHead(items, at);
    ViewUnfolds(items, at, base);
    StartUnfolds(items, at, i);
    if i > 0 {
      ViewHas(items[1..], at + Total(items[0], false), base + 1, i - 1);
      FittingParts(items, at);
      KeysDiffer(items, 0, i);
    }
  }

  lemma StartUnfolds(items: seq<Item>, at: nat, i: nat)
    requires i < |items|
    ensures StartOf(items, at, i) == if i == 0 then at else StartOf(items[1..], at + Total(items[0], false), i - 1)
  {
  }

  lemma FittingParts(items: seq<Item>, at: nat)
    requires Fitting(items, at)
    ensures NameableAll(items) && at + TotalOf(items) <= MAX_CLUSTERS
  {
  }

  ghost predicate HasKey(items: seq<Item>, i: nat, k: Key) {
    i < |items| && ShortName11(items[i].name).Some? && KeyOf(items[i].name) == k
  }

  lemma {:induction false} ViewOnly(items: seq<Item>, at: nat, base: nat, k: Key)
    requires Fitting(items, at)
    ensures k in ViewOf(items, at, base) ==> exists i: nat :: HasKey(items, i, k)
  {
    hide *;
    if items == [] {
      ViewNone(at, base);
    } else {
      FittingHead(items, at);
      var rest, at1 := items[1..], at + Total(items[0], false);
      ViewOnly(rest, at1, base + 1, k);
      ViewUnfolds(items, at, base);
      if k in ViewOf(items, at, base) {
        if k == KeyOf(items[0].name) {
          HasKeyIs(items, 0, k);
        } else {
          var i: nat :| HasKey(rest, i, k);
          HasKeyIs(rest, i, k);
          HasKeyIs(items, i + 1, k);
        }
      }
    }
  }

  lemma HasKeyIs(items: seq<Item>, i: nat, k: Key)
    ensures HasKey(items, i, k) <==> i < |items| && ShortName11(items[i].name).Some? && KeyOf(items[i].name) == k
  {
    hide KeyOf, ShortName11;
  }

  lemma ViewNone(at: nat, base: nat)
    ensures Fitting([], at) ==> ViewOf([], at, base) == map[] && EntriesOf([], at) == []
  {
  }

  lemma ViewUnfolds(items: seq<Item>, at: nat, base: nat)
    requires Fitting(items, at) && items != []
    ensures ShortName11(items[0].name).Some? && at < 0x1_0000_0000 && SizeOf(items[0]) < 0x1_0000_0000
    ensures Fitting(items[1..], at + Total(items[0], false))
    ensures ViewOf(items, at, base) ==
            ViewOf(items[1..], at + Total(items[0], false), base + 1)
              [KeyOf(items[0].name) := GroupFor(items[0], at, base)]
    ensures EntriesOf(items, at) == [EntryFor(items[0], at)] + EntriesOf(items[1..], at + Total(items[0], false))
  {
    hide KeyOf, GroupFor, ShortName11, EntryFor, Total, Fitting, SizeOf;
    FittingHead(items, at);
  }

  // ------------------------------------------------------------ directories

  lemma EntryIsLive(item: Item, at: nat)
    requires ShortName11(item.name).Some? && at < 0x1_0000_0000 && SizeOf(item) < 0x1_0000_0000
    ensures var e := EntryFor(item, at);
            IsLive(e) && !IsSpecial(e) && !IsLfn(e) && !IsFreeSlot(e)
            && (IsDirectory(e) <==> item.Folder?)
  {
    hide *;
    ShortStart(item.name);
    Kinds();
    LiveFrom(EntryFor(item, at));
  }

  lemma LiveFrom(e: Slot)
    requires Attributes(e) == ATTR_DIRECTORY || Attributes(e) == ATTR_ARCHIVE
    requires RawName(e)[0] != 0 && RawName(e)[0] != DELETED && RawName(e)[0] != DOT
    ensures IsLive(e) && !IsSpecial(e) && !IsLfn(e) && !IsFreeSlot(e)
    ensures IsDirectory(e) <==> Attributes(e) == ATTR_DIRECTORY
  {
    assert e[0] == RawName(e)[0];
  }

  lemma Kinds()
    ensures ATTR_DIRECTORY != ATTR_ARCHIVE
  {
  }

  lemma EntryEnters(view: View, item: Item, at: nat, base: nat)
    requires ShortName11(item.name).Some? && at < 0x1_0000_0000 && SizeOf(item) < 0x1_0000_0000
    requires KeyOf(item.name) !in view && ShortName11(item.name).value !in UsedNames(view)
    ensures var g := GroupFor(item, at, base);
            Enterable(view, g.name, g) && Fold(g.name) == KeyOf(item.name) && Named([], g)
  {
    EntryIsLive(item, at);
    KeyIs(item.name);
    FoldedDots(item.name);
    hide EntryFor, FormatShort, ShortName11;
  }

  lemma FoldedDots(name: Str)
    requires ShortName11(name).Some?
    ensures FormatShort(ShortName11(name).value) != [DOT] && FormatShort(ShortName11(name).value) != [DOT, DOT]
  {
    KeyIs(name);
    FoldIdempotent(Core(name));
    hide FormatShort, ShortName11;
    assert Fold([DOT]) == [DOT] && Fold([DOT, DOT]) == [DOT, DOT];
  }

  /** Slots from `base` on are unused, and the one before names something. */
  predicate EmptyFrom(slots: seq<Slot>, base: nat) {
    && base <= |slots| && (base == 0 || (!IsEnd(slots[base - 1]) && !IsLfn(slots[base - 1])))
    && forall p: nat | base <= p < |slots| :: IsEnd(slots[p])
  }

  ghost predicate AllAbsent(view: View, items: seq<Item>) {
    forall i: nat | i < |items| :: Absent(view, items[i])
  }

  /** Entries written one after the other into an empty rest make exactly their names. */
  lemma {:induction false} EntriesValid(slots: seq<Slot>, view: View, items: seq<Item>, at: nat, base: nat)
    requires ValidDirectory(slots, view) && Fitting(items, at) && base + |items| <= |slots|
    requires EmptyFrom(slots, base) && AllAbsent(view, items)
    ensures ValidDirectory(Overwrite(slots, base, EntriesOf(items, at)), view + ViewOf(items, at, base))
    decreases |items|
  {
    hide *;
    if items == [] {
      ViewNone(at, base);
      OverwriteNone(slots, base);
      assert view + map[] == view;
    } else {
      FittingHead(items, at);
      ViewUnfolds(items, at, base);
      var at1 := at + Total(items[0], false);
      HeadAbsent(view, items);
      FirstEntry(slots, view, items[0], at, base);
      StillAllAbsent(view, items, at, base);
      ViewsJoin(view, items, at, base);
      var slots1, view1 := Overwrite(slots, base, [EntryFor(items[0], at)]),
        view[KeyOf(items[0].name) := GroupFor(items[0], at, base)];
      EntriesValid(slots1, view1, items[1..], at1, base + 1);
      OverwriteJoins(slots, base, EntryFor(items[0], at), EntriesOf(items[1..], at1));
    }
  }

  lemma OverwriteNone(slots: seq<Slot>, base: nat)
    requires base <= |slots|
    ensures Overwrite(slots, base, []) == slots
  {
  }

  lemma OverwriteJoins(slots: seq<Slot>, base: nat, e: Slot, es: seq<Slot>)
    requires base + 1 + |es| <= |slots|
    ensures Overwrite(Overwrite(slots, base, [e]), base + 1, es) == Overwrite(slots, base, [e] + es)
  {
  }

  lemma HeadAbsent(view: View, items: seq<Item>)
    requires AllAbsent(view, items) && items != []
    ensures Absent(view, items[0])
  {
    hide Absent;
  }

  lemma StillAllAbsent(view: View, items: seq<Item>, at: nat, base: nat)
    requires AllAbsent(view, items) && Fitting(items, at) && items != []
    requires ShortName11(items[0].name).Some? && at < 0x1_0000_0000 && SizeOf(items[0]) < 0x1_0000_0000
    ensures AllAbsent(view[KeyOf(items[0].name) := GroupFor(items[0], at, base)], items[1..])
  {
    hide ShortName11, KeyOf, GroupFor, Absent, TotalOf;
    forall i: nat | i < |items[1..]| ensures Absent(view[KeyOf(items[0].name) := GroupFor(items[0], at, base)],
      items[1..][i]) {
      assert items[1..][i] == items[i + 1];
      assert Absent(view, items[i + 1]);
      KeysDiffer(items, 0, i + 1);
      StillAbsent(view, items[0], at, base, items[i + 1]);
    }
  }

  ghost predicate Absent(view: View, item: Item) {
    ShortName11(item.name).Some? && KeyOf(item.name) !in view && ShortName11(item.name).value !in UsedNames(view)
  }

  lemma StillAbsent(view: View, first: Item, at: nat, base: nat, item: Item)
    requires Absent(view, item) && ShortName11(first.name).Some? && at < 0x1_0000_0000 && SizeOf(first) < 0x1_0000_0000
    requires KeyOf(first.name) != KeyOf(item.name)
    ensures Absent(view[KeyOf(first.name) := GroupFor(first, at, base)], item)
  {
    hide *;
    AbsentParts(view, item);
    SameNameSameKey(first.name, item.name);
    AbsentAfter(view, KeyOf(first.name), GroupFor(first, at, base), item);
    RawOf(first, at, base);
  }

  lemma AbsentParts(view: View, item: Item)
    requires Absent(view, item)
    ensures ShortName11(item.name).Some?
  {
    hide KeyOf, ShortName11, UsedNames;
  }

  lemma SameNameSameKey(a: Str, b: Str)
    requires ShortName11(a).Some? && ShortName11(b).Some?
    ensures ShortName11(a) == ShortName11(b) ==> KeyOf(a) == KeyOf(b)
  {
    hide ShortName11;
  }

  lemma RawOf(item: Item, at: nat, base: nat)
    requires ShortName11(item.name).Some? && at < 0x1_0000_0000 && SizeOf(item) < 0x1_0000_0000
    ensures RawName(GroupFor(item, at, base).entry) == ShortName11(item.name).value
  {
    hide ShortName11, FormatShort, RawName;
  }

  lemma AbsentAfter(view: View, k: Key, g: Group, item: Item)
    requires Absent(view, item)
    ensures ShortName11(item.name).Some?
    ensures k != KeyOf(item.name) && RawName(g.entry) != ShortName11(item.name).value ==> Absent(view[k := g], item)
  {
    hide KeyOf, ShortName11, RawName;
  }

  lemma ViewsJoin(view: View, items: seq<Item>, at: nat, base: nat)
    requires Fitting(items, at) && items != []
    ensures ShortName11(items[0].name).Some? && at < 0x1_0000_0000 && SizeOf(items[0]) < 0x1_0000_0000
    ensures Fitting(items[1..], at + Total(items[0], false))
    ensures view[KeyOf(items[0].name) := GroupFor(items[0], at, base)] + ViewOf(items[1..], at + Total(items[0], false),
            base + 1)
         == view + ViewOf(items, at, base)
  {
    hide *;
    FittingHead(items, at);
    FittingParts(items, at);
    ViewUnfolds(items, at, base);
    FirstKeyOnce(items, at + Total(items[0], false), base + 1);
  }

  lemma FirstKeyOnce(items: seq<Item>, at1: nat, base: nat)
    requires NameableAll(items) && items != [] && Fitting(items[1..], at1) && ShortName11(items[0].name).Some?
    ensures KeyOf(items[0].name) !in ViewOf(items[1..], at1, base)
  {
    hide *;
    var k := KeyOf(items[0].name);
    ViewOnly(items[1..], at1, base, k);
    forall i: nat ensures !HasKey(items[1..], i, k) {
      HasKeyIs(items[1..], i, k);
      if i < |items[1..]| { KeysDiffer(items, 0, i + 1); }
    }
  }

  lemma FirstEntry(slots: seq<Slot>, view: View, item: Item, at: nat, base: nat)
    requires ValidDirectory(slots, view) && Absent(view, item) && base < |slots| && EmptyFrom(slots, base)
    requires ShortName11(item.name).Some? && at < 0x1_0000_0000 && SizeOf(item) < 0x1_0000_0000
    ensures var slots1 := Overwrite(slots, base, [EntryFor(item, at)]);
            && ValidDirectory(slots1, view[KeyOf(item.name) := GroupFor(item, at, base)]) && EmptyFrom(slots1, base + 1)
              && |slots1| == |slots|
  {
    hide *;
    var g, e := GroupFor(item, at, base), EntryFor(item, at);
    AbsentNames(view, item);
    EntryIsLive(item, at);
    EntryEnters(view, item, at, base);
    GroupIs(item, at, base);
    EmptyIsRoom(slots, base);
    InsertValid(slots, view, g.name, g, [e]);
    EmptyAfter(slots, base, e);
  }

  lemma AbsentNames(view: View, item: Item)
    requires Absent(view, item)
    ensures ShortName11(item.name).Some? && KeyOf(item.name) !in view
            && ShortName11(item.name).value !in UsedNames(view)
  {
    hide KeyOf, ShortName11, UsedNames;
  }

  lemma GroupIs(item: Item, at: nat, base: nat)
    requires ShortName11(item.name).Some? && at < 0x1_0000_0000 && SizeOf(item) < 0x1_0000_0000
    ensures var g, e := GroupFor(item, at, base), EntryFor(item, at);
            g.start == base && g.lfns == 0 && g.entry == e && [e][0] == e && [e][..0] == [] && |[e]| == 1
  {
    hide ShortName11, FormatShort, EntryFor;
  }

  lemma EmptyIsRoom(slots: seq<Slot>, base: nat)
    requires EmptyFrom(slots, base) && base < |slots|
    ensures Room(slots, base, 1)
  {
  }

  lemma EmptyAfter(slots: seq<Slot>, base: nat, e: Slot)
    requires EmptyFrom(slots, base) && base < |slots| && !IsFreeSlot(e) && !IsLfn(e)
    ensures EmptyFrom(Overwrite(slots, base, [e]), base + 1) && |Overwrite(slots, base, [e])| == |slots|
  {
  }
}
