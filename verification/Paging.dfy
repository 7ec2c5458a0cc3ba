/** The paging code: tables created, split and torn down in memory taken from the allocator. */
module Paging {
  import opened Bytes
  import opened PageRanges
  import opened PageFrames
  import opened PageTables
  import opened PagingFacts
  import opened BootMaps

  class Pager {
    const pages: Allocator
    var tables: Tables
    var kernel: nat
    ghost var at: Places

    ghost predicate Valid()
      reads this, pages, pages.ranges
    {
      && pages.Valid() && pages.ready && Forest(tables, at, kernel) && Clean(tables, pages.View(), pages.lost)
    }

    constructor (pages: Allocator)
      ensures this.pages == pages && tables == map[] && at == map[] && kernel == 0
    {
      this.pages := pages;
      tables, at, kernel := map[], map[], 0;
    }

    lemma Parts()
      requires Valid()
      ensures pages.Valid() && pages.Shaped() && pages.ready && Forest(tables, at, kernel)
              && Clean(tables, pages.View(), pages.lost)
    {
    }

    lemma Whole()
      requires pages.Valid() && pages.ready && Forest(tables, at, kernel) && Clean(tables, pages.View(), pages.lost)
      ensures Valid()
    {
    }

    /** `alloc_page_table`: a page no one uses; its contents are set by the caller's write. */
    method AllocTable() returns (f: Option<nat>)
      requires pages.Valid() && pages.ready && Clean(tables, pages.View(), pages.lost)
      modifies pages`count, pages.ranges
      ensures pages.Valid() && Clean(tables, pages.View(), pages.lost)
      ensures f.None? <==> forall a: nat :: !FreeRun(old(pages.View()), a, 1)
      ensures f.None? ==> pages.View() == old(pages.View()) && FirstFit(pages.View(), 1) == |pages.View()|
      ensures f.Some? ==>
                FirstFit(old(pages.View()), 1) < |old(pages.View())| && pages.View() == Taken(old(pages.View()), 1)
                && Total(pages.View()) + 1 == Total(old(pages.View()))
      ensures f.Some? ==> f.value !in tables && InUse(pages.View(), pages.lost, f.value)
                          && forall a: nat :: Returned(old(pages.View()), pages.lost, a) <==>
                                              Returned(pages.View(), pages.lost, a) || InPage(f.value, a)
    {
      ghost var free := pages.View();
      f := pages.AllocPages(1);
      if f.Some? {
        TakenClean(tables, free, pages.View(), pages.lost, f.value);
        TakenTotal(free, 1);
      } else {
        NoFit(free, 1);
      }
    }

    /** `get_or_create_table`: the table below an entry, made if the entry is empty.  It refuses to
        enter a table of the kernel's on behalf of another space. */
    method GetOrCreateTable(parent: nat, index: nat, user: bool, ghost s: Spot) returns (t: Option<nat>)
      requires Valid() && s in at && at[s] == parent && |s.path| < 2 && index < ENTRIES
      requires user <==> s.root != kernel
      modifies this`tables, this`at, pages`count, pages.ranges
      ensures Valid()
      ensures Extends(old(tables), old(at), old(pages.View()), pages.lost, tables, at, pages.View(), pages.lost, s.root)
      ensures SameMaps(old(tables), old(at), tables, at, kernel)
      ensures t.Some? ==> Child(s, index) in at && at[Child(s, index)] == t.value
      ensures t.None? ==>
                (NoPage(pages.View()) && Child(s, index) !in at) || KernelEntry(tables, at, kernel, s, index)
      ensures NewAt(old(at), at, Child(s, index)) && Paid(old(at), old(pages.View()), at, pages.View())
    {
      hide *;
      Parts();
      SpotTable(tables, at, kernel, s);
      EntryCases(tables, at, kernel, s, index);
      OneNew(at, at, Child(s, index), 0);
      PaidSame(at, pages.View());
      ExtendsSame(tables, at, pages.View(), pages.lost, s.root);
      SameMapsSame(tables, at, kernel);
      var entry := tables[parent][index];
      if entry.present {
        if entry.large {
          return None;
        }
        if user && !entry.user {
          return None;
        }
        return Some(entry.addr);
      }
      ghost var tables0, at0, free := tables, at, pages.View();
      t := AllocTable();
      if t.None? {
        NoPageIs(pages.View());
        Whole();
        return;
      }
      JoinUpper(tables0, at0, kernel, s, index, t.value, free, pages.View(), pages.lost);
      tables := tables[t.value := EmptyTable];
      tables := tables[parent := tables[parent][index := Link(t.value, user)]];
      at := at[Child(s, index) := t.value];
      OneNew(at0, at, Child(s, index), t.value);
      PaidOne(at0, free, pages.View(), Child(s, index), t.value);
      JoinedIs(tables0, parent, index, t.value, EmptyTable, user);
      Whole();
    }

    /** `get_or_create_pd` */
    method GetOrCreatePd(root: nat, a: nat, b: nat, user: bool) returns (pd: Option<nat>)
      requires Valid() && Spot(root, []) in at && a < ENTRIES && b < ENTRIES && (user <==> root != kernel)
      modifies this`tables, this`at, pages`count, pages.ranges
      ensures Valid()
      ensures Extends(old(tables), old(at), old(pages.View()), pages.lost, tables, at, pages.View(), pages.lost, root)
      ensures SameMaps(old(tables), old(at), tables, at, kernel)
      ensures pd.Some? ==> Spot(root, [a, b]) in at && at[Spot(root, [a, b])] == pd.value
      ensures pd.None? ==>
                || (NoPage(pages.View()) && Spot(root, [a, b]) !in at)
                || KernelEntry(tables, at, kernel, Spot(root, []), a)
      ensures NewUpper(old(at), at, root, a, b) && Paid(old(at), old(pages.View()), at, pages.View())
    {
      hide *;
      Parts();
      SpotTable(tables, at, kernel, Spot(root, []));
      Paths(root, a, b, 0);
      ghost var tables0, at0, free0 := tables, at, pages.View();
      var pdpt := GetOrCreateTable(root, a, user, Spot(root, []));
      UpperFirst(at0, at, root, a, b);
      Parts();
      UpperMissing(tables, at, kernel, root, a, b);
      if pdpt.None? {
        return None;
      }
      ghost var tables1, at1, free1 := tables, at, pages.View();
      OwnEntry(tables1, at1, kernel, root, a);
      pd := GetOrCreateTable(pdpt.value, b, user, Spot(root, [a]));
      Parts();
      UpperThen(at0, at1, at, root, a, b);
      PaidTwice(at0, free0, at1, free1, at, pages.View());
      NotRoot(tables, at, kernel, Spot(root, [a]), b);
      ExtendsTwice(tables0, at0, free0, pages.lost, tables1, at1, free1, pages.lost, tables, at, pages.View(),
        pages.lost, root);
      SameMapsTwice(tables0, at0, tables1, at1, tables, at, kernel);
    }

    /** `split_large_page`: the 512 pages of a 2 MiB page, spelled out in a table of their own. */
    method SplitLargePage(pd: nat, slot: nat, ghost s: Spot) returns (ok: bool)
      requires Valid() && s in at && at[s] == pd && |s.path| == 2 && slot < ENTRIES && pd in tables
               && tables[pd][slot].large
      modifies this`tables, this`at, pages`count, pages.ranges
      ensures Valid()
      ensures Extends(old(tables), old(at), old(pages.View()), pages.lost, tables, at, pages.View(), pages.lost, s.root)
      ensures SameMaps(old(tables), old(at), tables, at, kernel)
      ensures ok ==> Child(s, slot) in at && EntryAt(tables, pd, slot) == Link(at[Child(s, slot)], false)
      ensures !ok ==> NoPage(pages.View()) && Child(s, slot) !in at
      ensures NewAt(old(at), at, Child(s, slot)) && Paid(old(at), old(pages.View()), at, pages.View())
    {
      hide *;
      Parts();
      PaidSame(at, pages.View());
      LargeCase(tables, at, kernel, s, slot);
      OneNew(at, at, Child(s, slot), 0);
      ExtendsSame(tables, at, pages.View(), pages.lost, s.root);
      SameMapsSame(tables, at, kernel);
      var entry := tables[pd][slot];
      ghost var tables0, at0, free := tables, at, pages.View();
      var pt := AllocTable();
      if pt.None? {
        NoPageIs(pages.View());
        Whole();
        return false;
      }
      SplitKeeps(tables0, at0, kernel, s, slot, pt.value, free, pages.View(), pages.lost);
      FillSplit(pt.value, entry);
      tables := tables[pd := tables[pd][slot := Link(pt.value, entry.user)]];
      at := at[Child(s, slot) := pt.value];
      OneNew(at0, at, Child(s, slot), pt.value);
      PaidOne(at0, free, pages.View(), Child(s, slot), pt.value);
      JoinedIs(tables0, pd, slot, pt.value, SplitTable(entry), entry.user);
      JoinedReads(tables0, pd, slot, pt.value, SplitTable(entry), entry.user, pd, slot);
      Whole();
      ok := true;
    }

    /** The fill loop of the split. */
    method FillSplit(pt: nat, entry: Entry)
      requires pt !in tables
      modifies this`tables
      ensures tables == old(tables)[pt := SplitTable(entry)]
    {
      tables := tables[pt := EmptyTable];
      for index := 0 to ENTRIES
        invariant pt in tables && tables == old(tables)[pt := tables[pt]]
        invariant forall j | 0 <= j < index :: tables[pt][j] == SplitTable(entry)[j]
      {
        tables := tables[pt := tables[pt][index := Entry(entry.addr + index * PAGE_SIZE, true, entry.writable,
          entry.user,
          false, entry.nx)]];
      }
      assert tables[pt] == SplitTable(entry);
    }

    /** The middle of `map_page_4k`: a last-level table under a directory entry. */
    method EnsureTable(pd: nat, slot: nat, user: bool, ghost s: Spot) returns (ok: bool)
      requires Valid() && s in at && at[s] == pd && |s.path| == 2 && slot < ENTRIES && (user <==> s.root != kernel)
      modifies this`tables, this`at, pages`count, pages.ranges
      ensures Valid()
      ensures Extends(old(tables), old(at), old(pages.View()), pages.lost, tables, at, pages.View(), pages.lost, s.root)
      ensures SameMaps(old(tables), old(at), tables, at, kernel)
      ensures ok ==>
                Child(s, slot) in at && s in at && at[s] == pd
                && EntryAt(tables, pd, slot) == Link(at[Child(s, slot)], user)
      ensures !ok ==> NoPage(pages.View()) && Child(s, slot) !in at
      ensures NewAt(old(at), at, Child(s, slot)) && Paid(old(at), old(pages.View()), at, pages.View())
    {
      hide *;
      Parts();
      PaidSame(at, pages.View());
      SpotTable(tables, at, kernel, s);
      DirectoryCases(tables, at, kernel, s, slot);
      OneNew(at, at, Child(s, slot), 0);
      ExtendsSame(tables, at, pages.View(), pages.lost, s.root);
      SameMapsSame(tables, at, kernel);
      ghost var tables0, at0, free := tables, at, pages.View();
      var entry := tables[pd][slot];
      if entry.large {
        ok := SplitLargePage(pd, slot, s);
        Parts();
        ExtendsKeeps(tables0, at0, free, pages.lost, tables, at, pages.View(), pages.lost, s.root, s);
        return;
      }
      if !entry.present {
        var pt := AllocTable();
        if pt.None? {
          NoPageIs(pages.View());
          Whole();
          return false;
        }
        JoinLast(tables0, at0, kernel, s, slot, pt.value, free, pages.View(), pages.lost);
        tables := tables[pt.value := EmptyTable];
        tables := tables[pd := tables[pd][slot := Link(pt.value, user)]];
        at := at[Child(s, slot) := pt.value];
        OneNew(at0, at, Child(s, slot), pt.value);
        PaidOne(at0, free, pages.View(), Child(s, slot), pt.value);
        JoinedIs(tables0, pd, slot, pt.value, EmptyTable, user);
        JoinedReads(tables0, pd, slot, pt.value, EmptyTable, user, pd, slot);
        ChildLevel(s, slot);
        Whole();
        return true;
      }
      if user && !entry.user {
        return false;
      }
      ok := true;
    }

    /** `map_page_4k`: exactly one page of one space changes, and on failure none. */
    method MapPage4k(root: nat, va: nat, pa: nat, writable: bool, executable: bool, user: bool) returns (ok: bool)
      requires Valid() && Spot(root, []) in at && (user <==> root != kernel) && pa % PAGE_SIZE == 0
      modifies this`tables, this`at, pages`count, pages.ranges
      ensures Valid()
      ensures Extends(old(tables), old(at), old(pages.View()), pages.lost, tables, at, pages.View(), pages.lost, root)
      ensures ok ==> MapsOne(old(tables), old(at), tables, at, kernel, root, KeyOf(va),
                             LeafAt(pa, writable, user, executable))
      ensures ok ==> Pt(root, KeyOf(va)) in at
      ensures !ok ==> SameMaps(old(tables), old(at), tables, at, kernel)
      ensures !ok ==> Stopped(tables, at, pages.View(), kernel, root, KeyOf(va))
      ensures NewFor(old(at), at, root, va / PAGE_SIZE, 1) && Paid(old(at), old(pages.View()), at, pages.View())
    {
      hide *;
      Parts();
      var k := KeyOf(va);
      KeyInRange(va);
      ghost var tables0, at0, free0 := tables, at, pages.View();
      var pd := GetOrCreatePd(root, k.a, k.b, user);
      Sizes();
      UpperFor(at0, at, root, va);
      Parts();
      Levels(root, k);
      Paths(root, k.a, k.b, k.c);
      PdIs(root, k);
      if pd.None? {
        StoppedAbove(tables, at, pages.View(), kernel, root, k);
        return false;
      }
      ghost var tables1, at1, free1 := tables, at, pages.View();
      ghost var s := Spot(root, [k.a, k.b]);
      PathLength(root, k.a, k.b);
      ok := EnsureTable(pd.value, k.c, user, s);
      Parts();
      NewOne(at0, at1, at, root, va);
      ExtendsTwice(tables0, at0, free0, pages.lost, tables1, at1, free1, pages.lost, tables, at, pages.View(),
        pages.lost, root);
      SameMapsTwice(tables0, at0, tables1, at1, tables, at, kernel);
      PaidTwice(at0, free0, at1, free1, at, pages.View());
      if !ok {
        StoppedLast(tables, at, pages.View(), kernel, root, k);
        return;
      }
      ghost var tables2, at2 := tables, at;
      SpotTable(tables, at, kernel, s);
      SpotTable(tables, at, kernel, Child(s, k.c));
      LinkReads(tables, pd.value, k.c, at[Child(s, k.c)], user);
      var pt := tables[pd.value][k.c].addr;
      var entry := LeafEntry(pa, writable, user, executable);
      LeafIs(pa, writable, user, executable);
      LeafKeeps(tables2, at2, kernel, root, k, entry, pages.View(), pages.lost);
      tables := tables[pt := tables[pt][k.d := entry]];
      WrittenIs(tables2, pt, k.d, entry);
      Whole();
      ExtendsTwice(tables0, at0, free0, pages.lost, tables2, at2, pages.View(), pages.lost, tables, at, pages.View(),
        pages.lost, root);
      MapsAfter(tables0, at0, tables2, at2, tables, at, kernel, root, k, LeafAt(pa, writable, user, executable));
    }

    /** `map_range_in_root`: page after page, up to the first that cannot be mapped. */
    method MapRange(root: nat, va: nat, pa: nat, size: nat, writable: bool, executable: bool, user: bool)
      returns (ok: bool, ghost mapped: nat)
      requires Valid() && Spot(root, []) in at && (user <==> root != kernel)
      requires va < WORD && pa < WORD && size < WORD
      modifies this`tables, this`at, pages`count, pages.ranges
      ensures Valid()
      ensures Extends(old(tables), old(at), old(pages.View()), pages.lost, tables, at, pages.View(), pages.lost, root)
      ensures MapsRange(old(tables), old(at), tables, at, kernel, root, va / PAGE_SIZE, pa / PAGE_SIZE, mapped,
              writable,
              user, executable)
      ensures ok ==> RangeFits(va, pa, size) && mapped == RangePages(va, size)
      ensures !ok ==> if RangeFits(va, pa, size) then mapped < RangePages(va, size) else mapped == 0
      ensures !ok && RangeFits(va, pa, size) ==>
                Stopped(tables, at, pages.View(), kernel, root, PageKey(va / PAGE_SIZE + mapped))
      ensures HasTables(at, root, va / PAGE_SIZE, mapped)
      ensures NewFor(old(at), at, root, va / PAGE_SIZE, RangePages(va, size))
      ensures Paid(old(at), old(pages.View()), at, pages.View())
    {
      hide *;
      mapped := 0;
      Parts();
      Sizes();
      ghost var tables0, at0, free0 := tables, at, pages.View();
      ExtendsSame(tables, at, pages.View(), pages.lost, root);
      RangeNone(tables, at, kernel, root, va / PAGE_SIZE, pa / PAGE_SIZE, writable, user, executable);
      RangeWords(va, pa, size);
      NewNone(at, root, va / PAGE_SIZE, RangePages(va, size));
      PaidSame(at, pages.View());
      HasNone(at, root, va / PAGE_SIZE);
      WordStart(pa);
      if size == 0 {
        return false, 0;
      }
      if (va + size) % WORD < va || (pa + size) % WORD < pa {
        return false, 0;
      }
      var cursor, phys := va / PAGE_SIZE * PAGE_SIZE, pa / PAGE_SIZE * PAGE_SIZE;
      var end := (va + size + PAGE_SIZE - 1) % WORD / PAGE_SIZE * PAGE_SIZE;
      while cursor < end
        invariant Valid() && Spot(root, []) in at && pages.Shaped()
        invariant cursor == (va / PAGE_SIZE + mapped) * PAGE_SIZE
        invariant phys == (pa / PAGE_SIZE + mapped) * PAGE_SIZE % WORD
        invariant mapped <= RangePages(va, size)
        invariant Extends(tables0, at0, free0, pages.lost, tables, at, pages.View(), pages.lost, root)
        invariant MapsRange(tables0, at0, tables, at, kernel, root, va / PAGE_SIZE, pa / PAGE_SIZE, mapped, writable,
                  user,
                  executable)
        invariant NewFor(at0, at, root, va / PAGE_SIZE, RangePages(va, size)) && Paid(at0, free0, at, pages.View())
        invariant HasTables(at, root, va / PAGE_SIZE, mapped)
        decreases RangePages(va, size) - mapped
      {
        Cursor(va, size, mapped);
        CursorPage(va / PAGE_SIZE + mapped);
        PhysCursor(pa / PAGE_SIZE, mapped);
        FrameStarts(pa / PAGE_SIZE + mapped, writable, user, executable);
        ghost var tables1, at1, free1 := tables, at, pages.View();
        ok := MapPage4k(root, cursor, phys, writable, executable, user);
        Parts();
        NewTwice(at0, at1, at, root, va / PAGE_SIZE, RangePages(va, size), cursor / PAGE_SIZE);
        ExtendsTwice(tables0, at0, free0, pages.lost, tables1, at1, free1, pages.lost, tables, at, pages.View(),
          pages.lost, root);
        PaidTwice(at0, free0, at1, free1, at, pages.View());
        InExtended(tables1, at1, free1, tables, at, pages.View(), pages.lost, root);
        HasSame(at1, at, root, va / PAGE_SIZE, mapped);
        if !ok {
          RangeSame(tables0, at0, tables1, at1, tables, at, kernel, root, va / PAGE_SIZE, pa / PAGE_SIZE, mapped,
            writable,
            user, executable);
          return false, mapped;
        }
        ExtendsKeeps(tables1, at1, free1, pages.lost, tables, at, pages.View(), pages.lost, root, Spot(root, []));
        RangeStep(tables0, at0, tables1, at1, tables, at, kernel, root, va / PAGE_SIZE, pa / PAGE_SIZE, mapped,
          writable,
          user, executable);
        HasMore(at1, at, root, va / PAGE_SIZE, mapped);
        mapped := mapped + 1;
        cursor := cursor + PAGE_SIZE;
        phys := (phys + PAGE_SIZE) % WORD;
      }
      Cursor(va, size, mapped);
      ok := true;
    }

    /** The last write of `map_page_2m`. */
    method WriteLarge(pd: nat, slot: nat, pa: nat, writable: bool, executable: bool, ghost key: Key)
      requires Valid() && ValidKey(key) && slot == key.c && pa % SIZE_2M == 0
      requires Pd(kernel, key) in at && at[Pd(kernel, key)] == pd && Pt(kernel, key) !in at
      modifies this`tables
      ensures Valid() && slot < ENTRIES && tables.Keys == old(tables).Keys && pd in tables
              && tables[pd][slot] == LargeEntry(pa, writable, executable)
      ensures Extends(old(tables), at, pages.View(), pages.lost, tables, at, pages.View(), pages.lost, kernel)
      ensures MapsLarge(old(tables), at, tables, at, kernel, key, pa, writable, executable)
    {
      hide *;
      Parts();
      SpotTable(tables, at, kernel, Pd(kernel, key));
      LargeKeeps(tables, at, kernel, key, pa, writable, executable, pages.View(), pages.lost);
      ghost var tables0 := tables;
      var entry := LargeEntry(pa, writable, executable);
      tables := tables[pd := tables[pd][slot := entry]];
      WrittenIs(tables0, pd, slot, entry);
      Whole();
    }

    /** The last write of `map_page_2m`, over whatever the entry held. */
    method PutLarge(pd: nat, pa: nat, writable: bool, executable: bool, k: Key)
      requires Valid() && ValidKey(k) && pa % SIZE_2M == 0 && Pd(kernel, k) in at && at[Pd(kernel, k)] == pd
      modifies this`tables, this`at
      ensures Valid()
      ensures MapsLarge(old(tables), old(at), tables, at, kernel, k, pa, writable, executable)
      ensures Pt(kernel, k) !in old(at) ==>
                at == old(at)
                && Extends(old(tables), at, pages.View(), pages.lost, tables, at, pages.View(), pages.lost, kernel)
      ensures Pt(kernel, k) in old(at) ==>
                && at == CutAt(old(at), Pt(kernel, k)) && tables.Keys == old(tables.Keys) - {old(at)[Pt(kernel, k)]}
                && !Returned(pages.View(), pages.lost, old(at)[Pt(kernel, k)])
    {
      hide *;
      Parts();
      ghost var s, tables0, at0 := Pd(kernel, k), tables, at;
      PdIs(kernel, k);
      Levels(kernel, k);
      KeyIs(k);
      SpotTable(tables, at, kernel, s);
      DirectoryCases(tables, at, kernel, s, k.c);
      CutEntryIs(tables, at, kernel, s, k.c);
      var entry := tables[pd][k.c];
      if entry.present && !entry.large {
        CutOff(pd, k.c, entry.addr, s);
      }
      CutAtIs(at0, Pt(kernel, k), s);
      WriteLarge(pd, k.c, pa, writable, executable, k);
      if entry.present && !entry.large { CutThenLarge(tables0, at0, kernel, k, tables, pa, writable, executable); }
    }

    /** What that means for the table below: it is no table any more. */
    method CutOff(pd: nat, slot: nat, f: nat, ghost s: Spot)
      requires Valid() && CanCut(tables, at, kernel, s, slot) && pd == at[s] && f == at[Child(s, slot)]
      modifies this`tables, this`at
      ensures Valid() && pd in old(tables) && slot < ENTRIES && tables == CutTables(old(tables), pd, slot, f)
      ensures at == CutAt(old(at), Child(s, slot)) && tables.Keys == old(tables.Keys) - {f}
      ensures !Returned(pages.View(), pages.lost, f)
    {
      hide *;
      Parts();
      CutFacts(tables, at, kernel, s, slot);
      CanCutIs(tables, at, kernel, s, slot);
      CutForest(tables, at, kernel, s, slot);
      CutClean(tables, pages.View(), pages.lost, pd, slot, f);
      CutTablesIs(tables, pd, slot, f);
      tables := tables[pd := tables[pd][slot := Empty]] - {f};
      at := CutAt(at, Child(s, slot));
      Whole();
    }

    /** `map_page_2m`.  A table that hangs below the entry is cut off: it is a table no more, and its
        page is lost for good. */
    method MapPage2m(va: nat, pa: nat, writable: bool, executable: bool) returns (ok: bool)
      requires Valid() && Spot(kernel, []) in at && pa % SIZE_2M == 0
      modifies this`tables, this`at, pages`count, pages.ranges
      ensures Valid() && kernel == old(kernel)
      ensures ok ==> exists t1, at1 :: SameMaps(old(tables), old(at), t1, at1, kernel)
                                       && MapsLarge(t1, at1, tables, at, kernel, KeyOf(va), pa, writable, executable)
      ensures !ok ==> SameMaps(old(tables), old(at), tables, at, kernel) && NoPage(pages.View())
      ensures Pt(kernel, KeyOf(va)) !in old(at) ==>
                && NoNewLast(old(at), at)
                && Extends(old(tables), old(at), old(pages.View()), pages.lost, tables, at, pages.View(), pages.lost,
                     kernel)
                && Branched(old(at), old(pages.View()), at, pages.View(), kernel, va / PAGE_SIZE, 1)
      ensures Pt(kernel, KeyOf(va)) in old(at) ==>
                && ok && at == CutAt(old(at), Pt(kernel, KeyOf(va))) && pages.View() == old(pages.View())
                && tables.Keys == old(tables.Keys) - {old(at)[Pt(kernel, KeyOf(va))]}
                && !Returned(pages.View(), pages.lost, old(at)[Pt(kernel, KeyOf(va))])
    {
      hide *;
      Parts();
      var k := KeyOf(va);
      KeyInRange(va);
      Levels(kernel, k);
      ghost var tables0, at0, free0 := tables, at, pages.View();
      var pd := GetOrCreatePd(kernel, k.a, k.b, false);
      UpperNotLast(at0, at, kernel, k.a, k.b);
      UpperFor(at0, at, kernel, va);
      Parts();
      Sizes();
      PdIs(kernel, k);
      IsBranched(at0, free0, at, pages.View(), kernel, va / PAGE_SIZE, 1);
      if Pt(kernel, k) in at0 {
        NothingNew(tables0, at0, free0, tables, at, pages.View(), pages.lost, kernel, kernel, k);
      }
      if pd.None? {
        NotKernel(tables, at, kernel, Spot(kernel, []), k.a);
        return false;
      }
      ghost var tables1, at1, free1 := tables, at, pages.View();
      LastAbsent(at0, at, kernel, k);
      PutLarge(pd.value, pa, writable, executable, k);
      Parts();
      if Pt(kernel, k) !in at0 {
        ExtendsTwice(tables0, at0, free0, pages.lost, tables1, at1, free1, pages.lost, tables, at, pages.View(),
          pages.lost, kernel);
      }
      ok := true;
    }

    /** One round of the first loop of `map_kernel_image`: the chunk's directory entry is there, and
        leads to a table. */
    method SplitChunk(n: nat) returns (ok: bool)
      requires Valid() && Spot(kernel, []) in at && n < 0x800_0000
      modifies this`tables, this`at, pages`count, pages.ranges
      ensures Valid()
      ensures Extends(old(tables), old(at), old(pages.View()), pages.lost, tables, at, pages.View(), pages.lost, kernel)
      ensures Branched(old(at), old(pages.View()), at, pages.View(), kernel, n * 512, 1)
      ensures Filled(old(tables), old(at), tables, at, kernel, n, n + 1)
      ensures !ok ==> NoPage(pages.View())
    {
      hide *;
      Parts();
      MultipleOf(n);
      ChunkKey(n);
      var cursor := n * SIZE_2M;
      var k := KeyOf(cursor);
      KeyInRange(cursor);
      Levels(kernel, k);
      ghost var tables0, at0, free0 := tables, at, pages.View();
      var pd := GetOrCreatePd(kernel, k.a, k.b, false);
      UpperFor(at0, at, kernel, cursor);
      Parts();
      ChunkLow(n);
      IsBranched(at0, free0, at, pages.View(), kernel, n * 512, 1);
      if pd.None? {
        NotKernel(tables, at, kernel, Spot(kernel, []), k.a);
        SameIsFilled(tables0, at0, tables, at, kernel, n);
        return false;
      }
      Parts();
      ghost var tables1, at1, free1 := tables, at, pages.View();
      PdIs(kernel, k);
      SpotTable(tables, at, kernel, Pd(kernel, k));
      DirectoryCases(tables, at, kernel, Pd(kernel, k), k.c);
      FillTest(tables, at, kernel, n);
      if !tables[pd.value][k.c].present {
        WriteLarge(pd.value, k.c, cursor, true, true, k);
        ChunkFilled(tables1, at1, tables, kernel, n);
      }
      Parts();
      ghost var tables2, at2, free2 := tables, at, pages.View();
      ExtendsSame(tables1, at1, pages.View(), pages.lost, kernel);
      SameMapsSame(tables, at, kernel);
      ExtendsSame(tables, at, pages.View(), pages.lost, kernel);
      ok := true;
      if tables[pd.value][k.c].large {
        ok := SplitLargePage(pd.value, k.c, Pd(kernel, k));
        Parts();
        NewOne(at0, at2, at, kernel, cursor);
        PaidTwice(at0, free0, at2, free2, at, pages.View());
        IsBranched(at0, free0, at, pages.View(), kernel, n * 512, 1);
      }
      FilledAround(tables0, at0, tables1, at1, tables2, at2, tables, at, kernel, n);
      ExtendsTwice(tables0, at0, free0, pages.lost, tables1, at1, free1, pages.lost, tables2, at2, free2, pages.lost,
        kernel);
      ExtendsTwice(tables0, at0, free0, pages.lost, tables2, at2, free2, pages.lost, tables, at, pages.View(),
        pages.lost, kernel);
    }

    /** The second loop of `paging_init`: 2 MiB pages from 2 MiB to 4 GiB. */
    method FillLow() returns (ok: bool)
      requires Valid() && Spot(kernel, []) in at && ShowsLow(tables, at, kernel, 512) && NoTablesFrom(at, kernel, 512)
      modifies this`tables, this`at, pages`count, pages.ranges
      ensures Valid()
      ensures Extends(old(tables), old(at), old(pages.View()), pages.lost, tables, at, pages.View(), pages.lost, kernel)
      ensures Branched(old(at), old(pages.View()), at, pages.View(), kernel, 0, LOW_PAGES)
      ensures ok ==> ShowsLow(tables, at, kernel, LOW_PAGES)
      ensures !ok ==> NoPage(pages.View())
    {
      hide *;
      Parts();
      Limits();
      MultipleOf(1);
      LowLimits();
      ghost var tables0, at0, free0 := tables, at, pages.View();
      ExtendsSame(tables, at, pages.View(), pages.lost, kernel);
      BranchedNone(at, pages.View(), kernel, 0, LOW_PAGES);
      var cursor := SIZE_2M;
      ghost var n := 1;
      while cursor < LOW_LIMIT
        invariant Valid() && Spot(kernel, []) in at && pages.Shaped() && 1 <= n <= 2048 && cursor == n * SIZE_2M
        invariant Extends(tables0, at0, free0, pages.lost, tables, at, pages.View(), pages.lost, kernel)
        invariant Branched(at0, free0, at, pages.View(), kernel, 0, LOW_PAGES)
        invariant ShowsLow(tables, at, kernel, n * 512) && NoTablesFrom(at, kernel, 512)
        decreases 2048 - n
      {
        ghost var tables1, at1, free1 := tables, at, pages.View();
        MultipleOf(n);
        ChunkFree(at, kernel, n);
        ok := MapPage2m(cursor, cursor, true, true);
        Parts();
        ExtendsTwice(tables0, at0, free0, pages.lost, tables1, at1, free1, pages.lost, tables, at, pages.View(),
          pages.lost, kernel);
        ChunkLow(n);
        BranchedTwice(at0, free0, at1, free1, at, pages.View(), kernel, cursor / PAGE_SIZE, 1, 0, LOW_PAGES);
        if !ok {
          return;
        }
        ghost var t, a :| SameMaps(tables1, at1, t, a, kernel)
          && MapsLarge(t, a, tables, at, kernel, KeyOf(cursor), cursor, true, true);
        NextChunk(tables1, at1, t, a, tables, at, kernel, n);
        TablesStay(at1, at, kernel, 512);
        ExtendsKeeps(tables1, at1, free1, pages.lost, tables, at, pages.View(), pages.lost, kernel, Spot(kernel, []));
        n := n + 1;
        cursor := cursor + SIZE_2M;
      }
      ok := true;
    }

    /** The first loop of `map_kernel_image`. */
    method SplitChunks(image: Image) returns (ok: bool)
      requires Valid() && Spot(kernel, []) in at && Linked(image) && ShowsLow(tables, at, kernel, LOW_PAGES)
      modifies this`tables, this`at, pages`count, pages.ranges
      ensures Valid() && Spot(kernel, []) in at
      ensures Extends(old(tables), old(at), old(pages.View()), pages.lost, tables, at, pages.View(), pages.lost, kernel)
      ensures Branched(old(at), old(pages.View()), at, pages.View(), kernel, 0, LOW_PAGES)
      ensures ok ==> ShowsLow(tables, at, kernel, LOW_PAGES)
      ensures !ok ==> NoPage(pages.View())
    {
      hide *;
      Parts();
      Limits();
      ImageChunks(image);
      ghost var tables0, at0, free0 := tables, at, pages.View();
      ExtendsSame(tables, at, pages.View(), pages.lost, kernel);
      var first, last := image.start / SIZE_2M, (image.end + SIZE_2M - 1) / SIZE_2M;
      FilledSame(tables, at, kernel, first);
      BranchedNone(at, pages.View(), kernel, 0, LOW_PAGES);
      for n := first to last
        invariant Valid() && Spot(kernel, []) in at && pages.Shaped()
        invariant Extends(tables0, at0, free0, pages.lost, tables, at, pages.View(), pages.lost, kernel)
        invariant Branched(at0, free0, at, pages.View(), kernel, 0, LOW_PAGES)
        invariant Filled(tables0, at0, tables, at, kernel, first, n)
      {
        ghost var tables1, at1, free1 := tables, at, pages.View();
        ok := SplitChunk(n);
        Parts();
        BranchedTwice(at0, free0, at1, free1, at, pages.View(), kernel, n * 512, 1, 0, LOW_PAGES);
        ExtendsTwice(tables0, at0, free0, pages.lost, tables1, at1, free1, pages.lost, tables, at, pages.View(),
          pages.lost, kernel);
        ExtendsKeeps(tables1, at1, free1, pages.lost, tables, at, pages.View(), pages.lost, kernel, Spot(kernel, []));
        if !ok {
          return;
        }
        FilledMore(tables0, at0, tables1, at1, tables, at, kernel, first, n);
      }
      LowIsFilled(tables0, at0, tables, at, kernel, first, last);
      ok := true;
    }

    /** `map_range_identity_kernel`, for one section of the image. */
    method MapSection(image: Image, ghost n: nat, start: nat, end: nat, writable: bool, executable: bool)
                      returns (ok: bool)
      requires Valid() && Spot(kernel, []) in at && Linked(image) && Shows(tables, at, kernel, image, n)
      requires || (n == 0 && start == image.textStart && end == image.textEnd && !writable && executable)
               || (n == 1 && start == image.rodataStart && end == image.rodataEnd && !writable && !executable)
               || (n == 2 && start == image.dataStart && end == image.end && start < end && writable && !executable)
      modifies this`tables, this`at, pages`count, pages.ranges
      ensures Valid() && Spot(kernel, []) in at
      ensures Extends(old(tables), old(at), old(pages.View()), pages.lost, tables, at, pages.View(), pages.lost, kernel)
      ensures Branched(old(at), old(pages.View()), at, pages.View(), kernel, 0, LOW_PAGES)
      ensures ok ==> Shows(tables, at, kernel, image, n + 1)
      ensures !ok ==> NoPage(pages.View()) || start == end
    {
      hide *;
      Parts();
      Sizes();
      SectionFits(image);
      Limits();
      ghost var tables0, at0, free0 := tables, at, pages.View();
      ghost var mapped;
      ok, mapped := MapRange(kernel, start, start, end - start, writable, executable, false);
      Parts();
      ExtendsKeeps(tables0, at0, free0, pages.lost, tables, at, pages.View(), pages.lost, kernel, Spot(kernel, []));
      BranchedNone(at0, free0, kernel, 0, LOW_PAGES);
      IsBranched(at0, free0, at, pages.View(), kernel, start / PAGE_SIZE, RangePages(start, end - start));
      SectionLow(start, end);
      BranchedTwice(at0, free0, at0, free0, at, pages.View(), kernel, start / PAGE_SIZE,
        RangePages(start, end - start), 0, LOW_PAGES);
      NoKernelStop(tables, at, pages.View(), kernel);
      if ok {
        ShowsNext(tables0, at0, tables, at, kernel, image, n, start, end - start, writable, executable);
      }
    }

    /** `map_kernel_image` */
    method MapKernelImage(image: Image) returns (ok: bool)
      requires Valid() && Spot(kernel, []) in at && Linked(image) && ShowsLow(tables, at, kernel, LOW_PAGES)
      modifies this`tables, this`at, pages`count, pages.ranges
      ensures Valid() && Spot(kernel, []) in at
      ensures Extends(old(tables), old(at), old(pages.View()), pages.lost, tables, at, pages.View(), pages.lost, kernel)
      ensures Branched(old(at), old(pages.View()), at, pages.View(), kernel, 0, LOW_PAGES)
      ensures ok ==> Shows(tables, at, kernel, image, 3)
      ensures !ok ==> NoPage(pages.View()) || image.textStart == image.textEnd || image.rodataStart == image.rodataEnd
    {
      hide *;
      Limits();
      ghost var tables0, at0, free0 := Memory();
      ok := SplitChunks(image);
      ghost var tables1, at1, free1 := Memory();
      if !ok {
        return;
      }
      ShowsFirst(tables, at, kernel, image);
      ok := MapSection(image, 0, image.textStart, image.textEnd, false, true);
      ghost var tables2, at2, free2 := Memory();
      ExtendsTwice(tables0, at0, free0, pages.lost, tables1, at1, free1, pages.lost, tables2, at2, free2, pages.lost,
        kernel);
      BranchedTwice(at0, free0, at1, free1, at2, free2, kernel, 0, LOW_PAGES, 0, LOW_PAGES);
      if !ok {
        return;
      }
      ok := MapSection(image, 1, image.rodataStart, image.rodataEnd, false, false);
      ghost var tables3, at3, free3 := Memory();
      ExtendsTwice(tables0, at0, free0, pages.lost, tables2, at2, free2, pages.lost, tables3, at3, free3, pages.lost,
        kernel);
      BranchedTwice(at0, free0, at2, free2, at3, free3, kernel, 0, LOW_PAGES, 0, LOW_PAGES);
      if !ok {
        return;
      }
      if image.end > image.dataStart {
        ok := MapSection(image, 2, image.dataStart, image.end, true, false);
        ghost var tables4, at4, free4 := Memory();
        ExtendsTwice(tables0, at0, free0, pages.lost, tables3, at3, free3, pages.lost, tables4, at4, free4, pages.lost,
          kernel);
        BranchedTwice(at0, free0, at3, free3, at4, free4, kernel, 0, LOW_PAGES, 0, LOW_PAGES);
      } else {
        ShowsNoData(tables, at, kernel, image);
      }
    }

    /** `map_framebuffer` */
    method MapFramebuffer(image: Image, screen: Screen) returns (ok: bool)
      requires Valid() && Spot(kernel, []) in at && Linked(image) && Shows(tables, at, kernel, image, 3)
               && Words(screen)
      modifies this`tables, this`at, pages`count, pages.ranges
      ensures Valid() && Spot(kernel, []) in at
      ensures Extends(old(tables), old(at), old(pages.View()), pages.lost, tables, at, pages.View(), pages.lost, kernel)
      ensures Branched(old(at), old(pages.View()), at, pages.View(), kernel, ScreenStart(screen), ScreenPages(screen))
      ensures ok ==> HasTables(at, kernel, ScreenStart(screen), ScreenPages(screen))
      ensures ok ==> ShowsBooted(tables, at, kernel, image, screen)
      ensures !ok ==>
                NoPage(pages.View())
                || (Drawn(screen) && !RangeFits(screen.base, screen.base, ScreenBytes(screen)))
    {
      hide *;
      DrawnIs(screen);
      ghost var tables0, at0, free0 := Memory();
      ExtendsSame(tables, at, pages.View(), pages.lost, kernel);
      BranchedNone(at, pages.View(), kernel, ScreenStart(screen), ScreenPages(screen));
      HasNone(at, kernel, ScreenStart(screen));
      ScreenIs(screen);
      ok := true;
      if screen.Screen? && screen.base != 0 {
        ghost var mapped;
        ok, mapped := MapRange(kernel, screen.base, screen.base, ScreenBytes(screen), true, false, false);
        Parts();
        IsBranched(at0, free0, at, pages.View(), kernel, ScreenStart(screen), ScreenPages(screen));
        ExtendsKeeps(tables0, at0, free0, pages.lost, tables, at, pages.View(), pages.lost, kernel, Spot(kernel, []));
        NoKernelStop(tables, at, pages.View(), kernel);
      }
      if ok {
        ShowsScreen(tables0, at0, tables, at, kernel, image, screen);
      }
    }

    ghost method Memory() returns (t: Tables, a: Places, free: seq<Range>)
      requires Valid()
      ensures pages.Valid() && pages.Shaped() && t == tables && a == at && free == pages.View()
    {
      Parts();
      t, a, free := tables, at, pages.View();
    }

    /** `paging_init`: the kernel's first map.  It fails only when memory runs out, or for an image
        or a frame buffer of no size. */
    method Init(image: Image, screen: Screen) returns (ok: bool)
      requires pages.Valid() && pages.ready && Clean(map[], pages.View(), pages.lost) && Linked(image) && Words(screen)
      requires tables == map[] && at == map[]
      modifies this`tables, this`at, this`kernel, pages`count, pages.ranges
      ensures ok ==> Valid() && (forall k | ValidKey(k) :: Translate(tables, kernel, k) == Booted(k, image, screen))
      ensures ok ==> Spot(kernel, []) in at && forall s | s in at :: s.root == kernel
      ensures pages.Valid() && pages.ready && Clean(tables, pages.View(), pages.lost)
      ensures forall a: nat :: Returned(old(pages.View()), pages.lost, a) <==>
              Returned(pages.View(), pages.lost, a) || Added(map[], tables, a)
      ensures ok ==> forall a: nat | a > 0 :: Spot(kernel, [a]) in at <==> ScreenTop(screen, a)
      ensures |at| <= LOW_TABLES + ScreenTables(screen) && Served(old(pages.View()), Ones(|at|)) == Some(pages.View())
      ensures !ok ==>
                || NoPage(pages.View()) || image.textStart == image.textEnd
                || image.rodataStart == image.rodataEnd
                      || (Drawn(screen) && !RangeFits(screen.base, screen.base, ScreenBytes(screen)))
      ensures Bootable(image, screen, old(pages.View())) ==> ok
    {
      hide *;
      ghost var free, lost := Snapshot();
      PaidSame(map[], free);
      Limits();
      BootableIs(image, screen, free);
      var root := AllocTable();
      if root.None? {
        NoPageIs(pages.View());
        NothingAdded();
        BootPaid(free, map[], pages.View(), 0);
        return false;
      }
      PaidOne(map[], free, pages.View(), Spot(root.value, []), root.value);
      BareRoot(root.value, pages.View(), pages.lost);
      kernel := root.value;
      tables := map[kernel := EmptyTable];
      at := map[Spot(kernel, []) := kernel];
      Whole();
      ghost var tables0, at0, free0 := Memory();
      ok := InitMaps(image, screen);
      Parts();
      ghost var at1, free1 :| Branched(at0, free0, at1, free1, kernel, 0, LOW_PAGES)
        && Branched(at1, free1, at, pages.View(), kernel, ScreenStart(screen), ScreenPages(screen));
      BootBranched(at0, free0, at1, free1, at, pages.View(), kernel, screen);
      BootCount(at, kernel, screen);
      PaidTwice(map[], free, at0, free0, at, pages.View());
      BootPaid(free, at, pages.View(), LOW_TABLES + ScreenTables(screen));
      OnlyKernel(tables0, at0, free0, tables, at, pages.View(), pages.lost, kernel, free);
      if ok {
        BootTranslates(tables, at, kernel, image, screen);
        BootTops(tables, at, kernel, screen);
      }
    }

    /** `paging_init`, once the root is there. */
    method InitMaps(image: Image, screen: Screen) returns (ok: bool)
      requires Valid() && Linked(image) && Words(screen) && Spot(kernel, []) in at
      requires ShowsLow(tables, at, kernel, 1) && NoTablesFrom(at, kernel, 0)
      modifies this`tables, this`at, pages`count, pages.ranges
      ensures Valid()
      ensures Extends(old(tables), old(at), old(pages.View()), pages.lost, tables, at, pages.View(), pages.lost, kernel)
      ensures exists at1, free1 ::
                Branched(old(at), old(pages.View()), at1, free1, kernel, 0, LOW_PAGES)
                && Branched(at1, free1, at, pages.View(), kernel, ScreenStart(screen), ScreenPages(screen))
      ensures ok ==> HasTables(at, kernel, ScreenStart(screen), ScreenPages(screen))
      ensures ok ==> ShowsBooted(tables, at, kernel, image, screen)
      ensures !ok ==>
                || NoPage(pages.View()) || image.textStart == image.textEnd
                || image.rodataStart == image.rodataEnd
                      || (Drawn(screen) && !RangeFits(screen.base, screen.base, ScreenBytes(screen)))
    {
      hide *;
      Limits();
      MultipleOf(1);
      FirstSize();
      Sizes();
      ghost var tables0, at0, free0 := Memory();
      ghost var mapped;
      ok, mapped := MapRange(kernel, PAGE_SIZE, PAGE_SIZE, SIZE_2M - PAGE_SIZE, true, true, false);
      ghost var tables1, at1, free1 := Memory();
      NoKernelStop(tables, at, pages.View(), kernel);
      BranchedNone(at0, free0, kernel, 0, LOW_PAGES);
      IsBranched(at0, free0, at1, free1, kernel, 1, 511);
      BranchedTwice(at0, free0, at0, free0, at1, free1, kernel, 1, 511, 0, LOW_PAGES);
      BranchedNone(at1, free1, kernel, ScreenStart(screen), ScreenPages(screen));
      if !ok {
        return;
      }
      FirstPages(tables0, at0, tables, at, kernel);
      ExtendsKeeps(tables0, at0, free0, pages.lost, tables, at, pages.View(), pages.lost, kernel, Spot(kernel, []));
      ok := FillLow();
      ghost var tables2, at2, free2 := Memory();
      ExtendsTwice(tables0, at0, free0, pages.lost, tables1, at1, free1, pages.lost, tables2, at2, free2, pages.lost,
        kernel);
      BranchedTwice(at0, free0, at1, free1, at2, free2, kernel, 0, LOW_PAGES, 0, LOW_PAGES);
      BranchedNone(at2, free2, kernel, ScreenStart(screen), ScreenPages(screen));
      ExtendsKeeps(tables1, at1, free1, pages.lost, tables, at, pages.View(), pages.lost, kernel, Spot(kernel, []));
      if !ok {
        return;
      }
      ok := MapKernelImage(image);
      ghost var tables3, at3, free3 := Memory();
      ExtendsTwice(tables0, at0, free0, pages.lost, tables2, at2, free2, pages.lost, tables3, at3, free3, pages.lost,
        kernel);
      BranchedTwice(at0, free0, at2, free2, at3, free3, kernel, 0, LOW_PAGES, 0, LOW_PAGES);
      BranchedNone(at3, free3, kernel, ScreenStart(screen), ScreenPages(screen));
      if !ok {
        return;
      }
      ok := MapFramebuffer(image, screen);
      ghost var tables4, at4, free4 := Memory();
      ExtendsTwice(tables0, at0, free0, pages.lost, tables3, at3, free3, pages.lost, tables4, at4, free4, pages.lost,
        kernel);
    }

    // ------------------------------------------------------------ spaces

    /** `paging_create_address_space`: a root that sees exactly what the kernel sees. */
    method CreateAddressSpace() returns (root: nat)
      requires Valid()
      modifies this`tables, this`at, pages`count, pages.ranges
      ensures Valid()
      ensures root == 0 ==>
                NoPage(pages.View()) && tables == old(tables) && at == old(at)
                && pages.View() == old(pages.View()) && FirstFit(pages.View(), 1) == |pages.View()|
      ensures root != 0 ==>
                FirstFit(old(pages.View()), 1) < |old(pages.View())| && pages.View() == Taken(old(pages.View()), 1)
      ensures root != 0 ==> root !in old(tables) && root != kernel && kernel in old(tables)
                            && tables == old(tables)[root := old(tables)[kernel]]
                              && at == old(at)[Spot(root, []) := root]
                            && CanOpen(old(tables), old(at), kernel, root)
      ensures root != 0 ==> forall a: nat :: Returned(old(pages.View()), pages.lost, a) <==>
              Returned(pages.View(), pages.lost, a) || InPage(root, a)
      ensures root != 0 ==> forall k :: Translate(tables, root, k) == Translate(old(tables), kernel, k)
    {
      hide *;
      Parts();
      ghost var tables0, at0 := tables, at;
      var page := AllocTable();
      if page.None? {
        NoPageIs(pages.View());
        Whole();
        return 0;
      }
      root := page.value;
      NewSpace(tables0, at0, kernel, root, pages.View(), pages.lost);
      tables := tables[root := EmptyTable];
      CopyRoot(root);
      at := at[Spot(root, []) := root];
      assert tables == tables0[root := tables0[kernel]];
      Whole();
      forall k ensures Translate(tables, root, k) == Translate(tables0, kernel, k) {
        CopyTranslates(tables0, at0, kernel, root, k);
      }
    }

    method CopyRoot(root: nat)
      requires root in tables && kernel in tables && root != kernel
      modifies this`tables
      ensures tables == old(tables)[root := old(tables)[kernel]]
    {
      for i := 0 to ENTRIES
        invariant root in tables && kernel in tables && tables == old(tables)[root := tables[root]]
        invariant forall j | 0 <= j < i :: tables[root][j] == tables[kernel][j]
      {
        tables := tables[root := tables[root][i := tables[kernel][i]]];
      }
      assert tables[root] == old(tables)[kernel];
    }

    /** Hands one page back; it is no table any more. */
    method FreeTable(f: nat)
      requires pages.Valid() && pages.ready && InUse(pages.View(), pages.lost, f) && LostApart(pages.View(), pages.lost)
      modifies this`tables, pages`count, pages`lost, pages.ranges
      ensures pages.Valid() && pages.Shaped() && LostApart(pages.View(), pages.lost) && old(pages.lost) <= pages.lost
      ensures forall a: nat :: Returned(pages.View(), pages.lost, a) <==>
              Returned(old(pages.View()), old(pages.lost), a) || InPage(f, a)
      ensures tables == old(tables) - {f}
      ensures Given(old(pages.View()), old(pages.lost), [Range(f, 1)], pages.View(), pages.lost)
    {
      ghost var free, lost := pages.View(), pages.lost;
      UsedIsClear(free, lost, f);
      pages.FreePages(f, 1);
      GivenOne(free, lost, pages.View(), pages.lost, Range(f, 1));
      tables := tables - {f};
      GivenBack(free, lost, pages.View(), pages.lost, f);
    }

    /** `destroy_table_tree`: every table below `s` is handed back exactly once; the table itself is
        left to the caller.  `whole` is the memory as it was before the destruction began. */
    method DestroyTree(table: nat, level: nat, ghost s: Spot, ghost whole: Tables)
      requires pages.Valid() && pages.ready && Forest(whole, at, kernel) && PageSized(whole)
      requires s in at && at[s] == table && s.path != [] && level + |s.path| == 4 && StillThere(tables, whole, at, s)
      requires LostApart(pages.View(), pages.lost) && AllInUse(at, s, pages.View(), pages.lost)
      modifies this`tables, pages`count, pages`lost, pages.ranges
      ensures pages.Valid() && pages.Shaped() && LostApart(pages.View(), pages.lost) && old(pages.lost) <= pages.lost
      ensures forall a: nat :: Returned(pages.View(), pages.lost, a) <==>
              Returned(old(pages.View()), old(pages.lost), a) || BelowAny(at, s, a)
      ensures tables == old(tables) - FramesTo(at, s, ENTRIES)
      ensures Given(old(pages.View()), old(pages.lost), TablesBelow(at, s, ENTRIES), pages.View(), pages.lost)
      decreases level
    {
      hide *;
      SpotTable(whole, at, kernel, s);
      ghost var free, lost := Snapshot();
      ghost var tables0 := tables;
      NothingBelow(at, s, tables);
      TablesNone(at, s);
      GivenNone(free, lost);
      Sizes();
      for i := 0 to ENTRIES
        invariant pages.Valid() && pages.ready && pages.Shaped() && LostApart(pages.View(), pages.lost)
                  && lost <= pages.lost
        invariant forall a: nat :: Returned(pages.View(), pages.lost, a) <==>
                  Returned(free, lost, a) || BelowTo(at, s, i, a)
        invariant tables == tables0 - FramesTo(at, s, i)
        invariant Given(free, lost, TablesBelow(at, s, i), pages.View(), pages.lost)
      {
        ChildCases(whole, at, kernel, s, i);
        TableStays(tables0, whole, at, kernel, s, i);
        var entry := tables[table][i];
        if !entry.present || level == 1 || entry.large {
          ChildlessStep(whole, at, kernel, s, i);
          TablesSame(at, s, i);
          continue;
        }
        DestroyChild(entry.addr, level, s, i, free, lost, tables0, whole);
      }
      BelowAll(whole, at, kernel, s);
    }

    /** One round of the destruction loops: the subtree below entry `i`, then its table. */
    method DestroyChild(child: nat, level: nat, ghost s: Spot, ghost i: nat, ghost free: seq<Range>,
                        ghost lost: seq<Range>,
                        ghost tables0: Tables, ghost whole: Tables)
      requires pages.Valid() && pages.ready && Forest(whole, at, kernel) && PageSized(whole)
      requires s in at && Child(s, i) in at && at[Child(s, i)] == child && level > 0 && level + |s.path| == 4
      requires LostApart(pages.View(), pages.lost) && AllInUse(at, s, free, lost) && lost <= pages.lost
      requires forall a: nat :: Returned(pages.View(), pages.lost, a) <==>
               Returned(free, lost, a) || BelowTo(at, s, i, a)
      requires StillThere(tables0, whole, at, s) && tables == tables0 - FramesTo(at, s, i)
      requires Given(free, lost, TablesBelow(at, s, i), pages.View(), pages.lost)
      modifies this`tables, pages`count, pages`lost, pages.ranges
      ensures pages.Valid() && pages.Shaped() && LostApart(pages.View(), pages.lost) && lost <= pages.lost
      ensures forall a: nat :: Returned(pages.View(), pages.lost, a) <==>
              Returned(free, lost, a) || BelowTo(at, s, i + 1, a)
      ensures tables == tables0 - FramesTo(at, s, i + 1)
      ensures Given(free, lost, TablesBelow(at, s, i + 1), pages.View(), pages.lost)
      decreases level, 0
    {
      hide *;
      ghost var c := Child(s, i);
      Sizes();
      ChildLevel(s, i);
      ghost var free1, lost1 := Snapshot();
      UsedBelow(whole, at, kernel, s, i, free, lost, pages.View(), pages.lost);
      ThereBelow(tables0, whole, at, kernel, s, i);
      DestroyTree(child, level - 1, c, whole);
      TableUsed(whole, at, kernel, s, i, free, lost, free1, lost1, pages.View(), pages.lost);
      ghost var free2, lost2 := Snapshot();
      FreeTable(child);
      GivenMore(free1, lost1, TablesBelow(at, c, ENTRIES), free2, lost2, [Range(child, 1)], pages.View(), pages.lost);
      GivenMore(free, lost, TablesBelow(at, s, i), free1, lost1, TablesBelow(at, c, ENTRIES) + [Range(child, 1)],
        pages.View(), pages.lost);
      TablesMore(at, s, i);
      OneMoreBelow(at, s, i);
      FramesStep(whole, at, kernel, s, i);
    }

    /** `paging_destroy_address_space`: every table of the space, its root included, is handed back
        exactly once, and no table of another space is touched. */
    method DestroyAddressSpace(root: nat)
      requires Valid() && (root != 0 ==> Spot(root, []) in at)
      modifies this`tables, this`at, pages`count, pages`lost, pages.ranges
      ensures Valid()
      ensures root == 0 || root == kernel ==>
                tables == old(tables) && at == old(at)
                && pages.View() == old(pages.View()) && pages.lost == old(pages.lost)
      ensures root != 0 && root != kernel ==>
                && tables == old(tables) - Owned(old(at), root) && at == Others(old(at), root)
                  && old(pages.lost) <= pages.lost
                && forall a: nat :: Returned(pages.View(), pages.lost, a) <==>
                                    Returned(old(pages.View()), old(pages.lost), a) || OwnedAt(old(at), root, a)
      ensures root != 0 && root != kernel ==>
                Given(old(pages.View()), old(pages.lost), SpaceTables(old(at), root), pages.View(), pages.lost)
    {
      hide *;
      Parts();
      if root == 0 || root == kernel {
        return;
      }
      ghost var s, whole, at0 := Spot(root, []), tables, at;
      SpotTable(tables, at, kernel, s);
      KernelSpot(tables, at, kernel);
      CleanParts(tables, at, kernel, s, pages.View(), pages.lost);
      ghost var free, lost := Snapshot();
      NothingBelow(at, s, tables);
      TablesNone(at, s);
      GivenNone(free, lost);
      Sizes();
      for i := 0 to ENTRIES
        invariant pages.Valid() && pages.ready && pages.Shaped() && LostApart(pages.View(), pages.lost)
                  && lost <= pages.lost
        invariant forall a: nat :: Returned(pages.View(), pages.lost, a) <==>
                  Returned(free, lost, a) || BelowTo(at, s, i, a)
        invariant at == at0 && tables == whole - FramesTo(at, s, i)
        invariant Given(free, lost, TablesBelow(at, s, i), pages.View(), pages.lost)
      {
        TopCases(whole, at, kernel, root, i);
        TableStays(whole, whole, at, kernel, s, i);
        KernelStays(whole, at, kernel, s, i);
        var entry := tables[root][i];
        if !entry.present || entry == tables[kernel][i] || entry.large {
          ChildlessStep(whole, at, kernel, s, i);
          TablesSame(at, s, i);
          continue;
        }
        DestroyChild(entry.addr, 4, s, i, free, lost, whole, whole);
      }
      BelowAll(whole, at, kernel, s);
      RootUsed(whole, at, kernel, s, free, lost, pages.View(), pages.lost);
      ghost var free1, lost1 := Snapshot();
      FreeTable(root);
      GivenMore(free, lost, TablesBelow(at, s, ENTRIES), free1, lost1, [Range(root, 1)], pages.View(), pages.lost);
      SpaceTablesAre(at, root);
      at := Others(at, root);
      SpaceGone(whole, at0, kernel, root, free, lost, pages.View(), pages.lost);
      Whole();
    }

    ghost method Snapshot() returns (free: seq<Range>, lost: seq<Range>)
      requires pages.Valid()
      ensures pages.Shaped() && free == pages.View() && lost == pages.lost
    {
      free, lost := pages.View(), pages.lost;
    }
  }
}
