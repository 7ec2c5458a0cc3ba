/** What each step of the paging code does to the pages in use, the forest of tables and the maps. */
module PagingFacts {
  import opened Bytes
  import opened PageRanges
  import opened PageTables

  /** Address `a` has been handed back to the allocator, whether it was kept or lost. */
  ghost predicate Returned(free: seq<Range>, lost: seq<Range>, a: nat) {
    Holds(free, a) || Holds(lost, a)
  }

  ghost predicate InPage(f: nat, a: nat) {
    Within(f, f + PAGE_SIZE, a)
  }

  /** `f` is a page in use. */
  ghost predicate InUse(free: seq<Range>, lost: seq<Range>, f: nat) {
    f > 0 && f % PAGE_SIZE == 0 && forall a: nat | InPage(f, a) :: !Returned(free, lost, a)
  }

  /** No page is both free and lost, page 0 is neither, and every table is in use. */
  ghost predicate Clean(tables: Tables, free: seq<Range>, lost: seq<Range>) {
    && (forall a: nat | Holds(lost, a) :: !Holds(free, a))
    && !Returned(free, lost, 0)
    && forall f | f in tables :: InUse(free, lost, f)
  }

  /** Some table of `after` that `before` lacks lies at `a`. */
  ghost predicate Added(before: Tables, after: Tables, a: nat) {
    exists f :: f in after && f !in before && InPage(f, a)
  }

  /** Top entries change only from nothing to a table of the space's own. */
  ghost predicate TopKept(tables: Tables, at: Places, tables': Tables, at': Places) {
    forall t, i: nat | t in at && t.path == [] && i < ENTRIES ::
      EntryAt(tables', at[t], i) == EntryAt(tables, at[t], i)
        || (!EntryAt(tables, at[t], i).present && Child(t, i) in at')
  }

  /** Space `root` may have gained tables; nothing else changed hands, and no table of another space
      was written. */
  ghost predicate Extends(tables: Tables, at: Places, free: seq<Range>, lost: seq<Range>,
                          tables': Tables, at': Places, free': seq<Range>, lost': seq<Range>, root: nat) {
    && (forall s | s in at :: s in at' && at'[s] == at[s])
    && (forall s | s in at' && s !in at :: s.root == root && s.path != [])
    && (forall s | s in at && s.root != root && at[s] in tables :: at[s] in tables' && tables'[at[s]] == tables[at[s]])
    && (forall f | f in tables :: f in tables')
    && TopKept(tables, at, tables', at')
    && lost' == lost
    && forall a: nat :: Returned(free, lost, a) <==> Returned(free', lost', a) || Added(tables, tables', a)
  }

  lemma ExtendsSame(tables: Tables, at: Places, free: seq<Range>, lost: seq<Range>, root: nat)
    ensures Extends(tables, at, free, lost, tables, at, free, lost, root)
  {
  }

  lemma AddedTwice(t0: Tables, t1: Tables, t2: Tables, a: nat)
    requires (forall f | f in t0 :: f in t1) && forall f | f in t1 :: f in t2
    ensures Added(t0, t2, a) <==> Added(t0, t1, a) || Added(t1, t2, a)
  {
    if Added(t0, t2, a) {
      var f :| f in t2 && f !in t0 && InPage(f, a);
      assert f in t1 || f !in t1;
    }
    if Added(t1, t2, a) {
      var f :| f in t2 && f !in t1 && InPage(f, a);
      assert f !in t0;
    }
  }

  lemma ExtendsTwice(t0: Tables, at0: Places, free0: seq<Range>, lost0: seq<Range>,
                     t1: Tables, at1: Places, free1: seq<Range>, lost1: seq<Range>,
                     t2: Tables, at2: Places, free2: seq<Range>, lost2: seq<Range>, root: nat)
    requires Extends(t0, at0, free0, lost0, t1, at1, free1, lost1, root)
    requires Extends(t1, at1, free1, lost1, t2, at2, free2, lost2, root)
    ensures Extends(t0, at0, free0, lost0, t2, at2, free2, lost2, root)
  {
    TopTwice(t0, at0, t1, at1, t2, at2);
    hide Returned, Added, TopKept;
    forall a: nat ensures Returned(free0, lost0, a) <==> Returned(free2, lost2, a) || Added(t0, t2, a) {
      AddedTwice(t0, t1, t2, a);
    }
  }

  lemma TopTwice(t0: Tables, at0: Places, t1: Tables, at1: Places, t2: Tables, at2: Places)
    requires TopKept(t0, at0, t1, at1) && TopKept(t1, at1, t2, at2)
    requires forall s | s in at0 :: s in at1 && at1[s] == at0[s]
    requires forall s | s in at1 :: s in at2 && at2[s] == at1[s]
    ensures TopKept(t0, at0, t2, at2)
  {
    hide EntryAt, Child;
    forall t, i: nat | t in at0 && t.path == [] && i < ENTRIES
      ensures EntryAt(t2, at0[t], i) == EntryAt(t0, at0[t], i)
              || (!EntryAt(t0, at0[t], i).present && Child(t, i) in at2)
    {
      assert t in at1 && at1[t] == at0[t];
    }
  }

  /** Every page of every space is where it was. */
  ghost predicate SameMaps(tables: Tables, at: Places, tables': Tables, at': Places, kernel: nat) {
    forall r: nat, k | ValidKey(k) :: OwnTranslate(tables', at', kernel, r, k) == OwnTranslate(tables, at, kernel, r, k)
  }

  /** The two overflow tests of map_range_in_root. */
  predicate RangeFits(va: nat, pa: nat, size: nat) {
    size > 0 && va + size < WORD && pa + size < WORD
  }

  /** How many pages the loop visits: those the rounded range covers, or none at all when rounding
      its end up leaves the address space. */
  function RangePages(va: nat, size: nat): (n: nat)
  {
    var end := (va + size + PAGE_SIZE - 1) % WORD / PAGE_SIZE;
    if end > va / PAGE_SIZE then end - va / PAGE_SIZE else 0
  }

  /** The loop covers the range to its last byte, and no page more, unless the end rounds up past
      the machine word: then it visits nothing. */
  lemma RangeCovers(va: nat, size: nat)
    requires size > 0 && va + size < WORD
    ensures va + size <= (va / PAGE_SIZE + RangePages(va, size)) * PAGE_SIZE <==> va + size + PAGE_SIZE - 1 < WORD
    ensures va + size + PAGE_SIZE - 1 < WORD ==>
              RangePages(va, size) > 0 && (va / PAGE_SIZE + RangePages(va, size) - 1) * PAGE_SIZE < va + size
    ensures va + size + PAGE_SIZE - 1 >= WORD ==> RangePages(va, size) == 0
  {
    var sum := va + size + PAGE_SIZE - 1;
    if sum >= WORD {
      assert sum % WORD == sum - WORD;
    } else {
      assert sum % WORD == sum;
    }
  }

  lemma RangeWords(va: nat, pa: nat, size: nat)
    requires va < WORD && pa < WORD && size < WORD
    ensures RangeFits(va, pa, size) <==> size > 0 && !((va + size) % WORD < va) && !((pa + size) % WORD < pa)
    ensures (va / PAGE_SIZE + 0) * PAGE_SIZE == va / PAGE_SIZE * PAGE_SIZE
            && (pa / PAGE_SIZE + 0) * PAGE_SIZE == pa / PAGE_SIZE * PAGE_SIZE
  {
    Wrapped(va, size);
    Wrapped(pa, size);
  }

  lemma Sizes()
    ensures PAGE_SIZE == 0x1000 && WORD == 0x1_0000_0000_0000_0000 && ENTRIES == 512
  {
  }

  /** The physical cursor wraps with the machine word. */
  lemma PhysCursor(q: nat, n: nat)
    ensures (q + (n + 1)) * PAGE_SIZE % WORD == ((q + n) * PAGE_SIZE % WORD + PAGE_SIZE) % WORD
    ensures (q + n) * PAGE_SIZE % WORD < WORD
  {
    var x := (q + n) * PAGE_SIZE;
    assert (q + (n + 1)) * PAGE_SIZE == x + PAGE_SIZE;
    WordStep(x, PAGE_SIZE);
  }

  lemma WordStep(x: nat, y: nat)
    ensures (x + y) % WORD == (x % WORD + y) % WORD
  {
  }

  lemma FrameStarts(q: nat, writable: bool, user: bool, executable: bool)
    ensures q * PAGE_SIZE % WORD % PAGE_SIZE == 0
    ensures FrameLeaf(q, writable, user, executable) == LeafAt(q * PAGE_SIZE % WORD, writable, user, executable)
  {
    var d := q * PAGE_SIZE / WORD;
    assert q * PAGE_SIZE % WORD == (q - d * (WORD / PAGE_SIZE)) * PAGE_SIZE;
  }

  lemma WordStart(pa: nat)
    requires pa < WORD
    ensures (pa / PAGE_SIZE + 0) * PAGE_SIZE % WORD == pa / PAGE_SIZE * PAGE_SIZE
  {
  }

  lemma Wrapped(x: nat, size: nat)
    requires x < WORD && size < WORD
    ensures (x + size) % WORD < x <==> x + size >= WORD
  {
    if x + size >= WORD {
      assert (x + size) % WORD == x + size - WORD;
    }
  }

  lemma Cursor(va: nat, size: nat, n: nat)
    ensures (va / PAGE_SIZE + n) * PAGE_SIZE < (va + size + PAGE_SIZE - 1) % WORD / PAGE_SIZE * PAGE_SIZE <==>
            n < RangePages(va, size)
    ensures (va / PAGE_SIZE + (n + 1)) * PAGE_SIZE == (va / PAGE_SIZE + n) * PAGE_SIZE + PAGE_SIZE
    ensures KeyOf((va / PAGE_SIZE + n) * PAGE_SIZE) == PageKey(va / PAGE_SIZE + n)
  {
  }

  /** Page `k` after `n` pages from `p` were mapped to the frames from `q`; where indices repeat,
      the last write counts. */
  function Overlaid(before: Option<Leaf>, k: Key, p: nat, q: nat, n: nat, writable: bool, user: bool,
                    executable: bool): Option<Leaf> {
    if n == 0 then before
    else if PageKey(p + n - 1) == k then Some(FrameLeaf(q + n - 1, writable, user, executable))
    else Overlaid(before, k, p, q, n - 1, writable, user, executable)
  }

  /** Below 2^48 no indices repeat: page p + j goes to frame q + j, and no other page moves. */
  lemma {:induction false} OverlaidPages(before: Option<Leaf>, p: nat, q: nat, n: nat, writable: bool, user: bool,
                                         executable: bool, v: nat)
    requires p + n <= 0x10_0000_0000 && v < 0x10_0000_0000
    ensures Overlaid(before, PageKey(v), p, q, n, writable, user, executable) ==
            if p <= v < p + n then Some(FrameLeaf(q + (v - p), writable, user, executable)) else before
    decreases n
  {
    hide FrameLeaf;
    if n > 0 {
      KeyInjective(p + n - 1, v);
      OverlaidPages(before, p, q, n - 1, writable, user, executable, v);
    }
  }

  ghost predicate MapsRange(tables: Tables, at: Places, tables': Tables, at': Places, kernel: nat, root: nat,
                            p: nat, q: nat, n: nat, writable: bool, user: bool, executable: bool) {
    forall r: nat, k | ValidKey(k) ::
      OwnTranslate(tables', at', kernel, r, k) ==
      if r == root then Overlaid(OwnTranslate(tables, at, kernel, r, k), k, p, q, n, writable, user, executable)
      else OwnTranslate(tables, at, kernel, r, k)
  }

  lemma RangeNone(tables: Tables, at: Places, kernel: nat, root: nat, p: nat, q: nat, writable: bool, user: bool,
                  executable: bool)
    ensures MapsRange(tables, at, tables, at, kernel, root, p, q, 0, writable, user, executable)
  {
    hide OwnTranslate;
  }

  lemma RangeSame(t0: Tables, at0: Places, t1: Tables, at1: Places, t2: Tables, at2: Places, kernel: nat, root: nat,
                  p: nat, q: nat, n: nat, writable: bool, user: bool, executable: bool)
    requires MapsRange(t0, at0, t1, at1, kernel, root, p, q, n, writable, user, executable)
    requires SameMaps(t1, at1, t2, at2, kernel)
    ensures MapsRange(t0, at0, t2, at2, kernel, root, p, q, n, writable, user, executable)
  {
    hide OwnTranslate, Overlaid;
  }

  lemma RangeStep(t0: Tables, at0: Places, t1: Tables, at1: Places, t2: Tables, at2: Places, kernel: nat, root: nat,
                  p: nat, q: nat, n: nat, writable: bool, user: bool, executable: bool)
    requires MapsRange(t0, at0, t1, at1, kernel, root, p, q, n, writable, user, executable)
    requires MapsOne(t1, at1, t2, at2, kernel, root, PageKey(p + n),
             FrameLeaf(q + n, writable, user, executable))
    ensures MapsRange(t0, at0, t2, at2, kernel, root, p, q, n + 1, writable, user, executable)
  {
    hide OwnTranslate, PageKey, FrameLeaf;
  }

  lemma TakenClean(tables: Tables, free: seq<Range>, free': seq<Range>, lost: seq<Range>, f: nat)
    requires Clean(tables, free, lost) && FreeRun(free, f, 1)
    requires forall a: nat :: Holds(free', a) <==> Holds(free, a) && !Within(f, f + 1 * PAGE_SIZE, a)
    ensures Clean(tables, free', lost) && f !in tables && InUse(free', lost, f)
    ensures forall a: nat :: Returned(free, lost, a) <==> Returned(free', lost, a) || InPage(f, a)
  {
    assert forall a: nat | InPage(f, a) :: Holds(free, a);
    hide Holds;
    assert InPage(f, f);
    assert f in tables ==> InUse(free, lost, f);
    forall t | t in tables ensures InUse(free', lost, t) {
      assert InUse(free, lost, t);
    }
  }

  ghost predicate NoPage(free: seq<Range>) {
    forall a: nat :: !FreeRun(free, a, 1)
  }

  /** The root entry of a private space that leads into the kernel's tables. */
  ghost predicate KernelEntry(tables: Tables, at: Places, kernel: nat, s: Spot, i: nat)
  {
    s.path == [] && s.root != kernel && Spot(kernel, [i]) in at
      && EntryAt(tables, s.root, i) == Link(at[Spot(kernel, [i])], false)
  }

  lemma SpotTable(tables: Tables, at: Places, kernel: nat, s: Spot)
    requires Forest(tables, at, kernel) && s in at
    ensures at[s] in tables && (s.path == [] ==> at[s] == s.root) && |s.path| <= 3
  {
    hide AllEntries;
    assert SpotOk(tables, at, kernel, s);
  }

  /** What the code's tests on an upper entry mean. */
  lemma EntryCases(tables: Tables, at: Places, kernel: nat, s: Spot, i: nat)
    requires Forest(tables, at, kernel) && s in at && |s.path| < 2 && i < ENTRIES && at[s] in tables
    ensures var e := tables[at[s]][i];
            && !e.large
            && (!e.present ==> EntryAt(tables, at[s], i) == Empty && Child(s, i) !in at)
            && (e.present && (s.root == kernel || e.user) ==> Child(s, i) in at && e.addr == at[Child(s, i)])
            && (e.present && s.root != kernel && !e.user ==> KernelEntry(tables, at, kernel, s, i))
  {
    SpotTable(tables, at, kernel, s);
    if s.path == [] {
      TopEntry(tables, at, kernel, s.root, i);
      Paths(s.root, i, 0, 0);
      assert s == Spot(s.root, []);
    } else {
      LowerEntry(tables, at, kernel, s, i);
    }
    hide Forest;
  }

  lemma SameMapsSame(tables: Tables, at: Places, kernel: nat)
    ensures SameMaps(tables, at, tables, at, kernel)
  {
  }

  lemma NoPageIs(free: seq<Range>)
    requires forall a: nat :: !FreeRun(free, a, 1)
    ensures NoPage(free)
  {
  }

  lemma JoinedIs(tables: Tables, t: nat, i: nat, f: nat, content: Table, user: bool)
    requires t in tables && i < ENTRIES && f !in tables
    ensures t in tables[f := content] && tables[f := content][t := tables[f := content][t][i := Link(f, user)]] ==
            Joined(tables, t, i, f, content, user)
  {
  }

  /** A fresh page became a table: what that means for the forest, the pages and the maps. */
  lemma JoinKeeps(tables: Tables, at: Places, kernel: nat, s: Spot, i: nat, f: nat, content: Table,
                  free: seq<Range>, free': seq<Range>, lost: seq<Range>)
    requires CanJoin(tables, at, kernel, s, i, f, content) && s in at
    requires Clean(tables, free', lost) && InUse(free', lost, f)
    requires forall a: nat :: Returned(free, lost, a) <==> Returned(free', lost, a) || InPage(f, a)
    ensures at[s] in tables && i < ENTRIES && f !in tables
    ensures var tables', at' := Joined(tables, at[s], i, f, content, s.root != kernel), at[Child(s, i) := f];
            && Forest(tables', at', kernel) && Clean(tables', free', lost)
            && Extends(tables, at, free, lost, tables', at', free', lost, s.root)
  {
    hide *;
    JoinFacts(tables, at, kernel, s, i, f, content);
    JoinOver(tables, at, kernel, s, i, f, content);
    JoinForest(tables, at, kernel, s, i, f, content);
    JoinClean(tables, at, s, i, f, content, s.root != kernel, free', lost);
    JoinNothing(tables, at, kernel, s, i, f, content);
    JoinExtends(tables, at, s, i, f, content, s.root != kernel, free, free', lost);
  }

  lemma JoinNothing(tables: Tables, at: Places, kernel: nat, s: Spot, i: nat, f: nat, content: Table)
    requires CanJoin(tables, at, kernel, s, i, f, content) && s in at
    ensures s.path == [] ==> EntryAt(tables, at[s], i) == Empty
  {
    hide Forest;
  }

  lemma JoinClean(tables: Tables, at: Places, s: Spot, i: nat, f: nat, content: Table, user: bool, free': seq<Range>,
                  lost: seq<Range>)
    requires s in at && at[s] in tables && i < ENTRIES && f !in tables
    requires Clean(tables, free', lost) && InUse(free', lost, f)
    ensures Clean(Joined(tables, at[s], i, f, content, user), free', lost)
  {
    JoinedKeys(tables, at[s], i, f, content, user);
    hide Joined, InUse, Returned;
  }

  lemma JoinTop(tables: Tables, at: Places, s: Spot, i: nat, f: nat, content: Table, user: bool)
    requires s in at && at[s] in tables && i < ENTRIES && f !in tables
    requires (forall t | t in at && t != s :: at[t] != at[s]) && forall t | t in at :: at[t] != f
    requires s.path == [] ==> EntryAt(tables, at[s], i) == Empty
    ensures TopKept(tables, at, Joined(tables, at[s], i, f, content, user), at[Child(s, i) := f])
  {
    hide EntryAt, Joined, Child;
    forall t, j: nat | t in at && t.path == [] && j < ENTRIES
      ensures EntryAt(Joined(tables, at[s], i, f, content, user), at[t], j) == EntryAt(tables, at[t], j)
              || (!EntryAt(tables, at[t], j).present && Child(t, j) in at[Child(s, i) := f])
    {
      JoinedReads(tables, at[s], i, f, content, user, at[t], j);
    }
  }

  lemma JoinExtends(tables: Tables, at: Places, s: Spot, i: nat, f: nat, content: Table, user: bool,
                    free: seq<Range>, free': seq<Range>, lost: seq<Range>)
    requires s in at && at[s] in tables && i < ENTRIES && f !in tables && Child(s, i) !in at
    requires (forall t | t in at && t != s :: at[t] != at[s]) && forall t | t in at :: at[t] != f
    requires s.path == [] ==> EntryAt(tables, at[s], i) == Empty
    requires forall a: nat :: Returned(free, lost, a) <==> Returned(free', lost, a) || InPage(f, a)
    ensures Extends(tables, at, free, lost, Joined(tables, at[s], i, f, content, user), at[Child(s, i) := f], free',
            lost, s.root)
  {
    JoinedKeys(tables, at[s], i, f, content, user);
    JoinTop(tables, at, s, i, f, content, user);
    hide TopKept;
    var tables' := Joined(tables, at[s], i, f, content, user);
    forall t | t in at && t.root != s.root && at[t] in tables ensures tables'[at[t]] == tables[at[t]] {
      assert at[t] != at[s];
    }
    hide Returned, InPage, Joined;
    forall a: nat ensures Added(tables, tables', a) <==> InPage(f, a) {
      assert f in tables' && f !in tables;
    }
  }

  lemma JoinUpper(tables: Tables, at: Places, kernel: nat, s: Spot, i: nat, f: nat,
                  free: seq<Range>, free': seq<Range>, lost: seq<Range>)
    requires Forest(tables, at, kernel) && s in at && at[s] in tables && |s.path| < 2 && i < ENTRIES
    requires EntryAt(tables, at[s], i) == Empty && Child(s, i) !in at && f !in tables
    requires Clean(tables, free', lost) && InUse(free', lost, f)
    requires forall a: nat :: Returned(free, lost, a) <==> Returned(free', lost, a) || InPage(f, a)
    ensures var tables', at' := Joined(tables, at[s], i, f, EmptyTable, s.root != kernel), at[Child(s, i) := f];
            && Forest(tables', at', kernel) && Clean(tables', free', lost)
            && Extends(tables, at, free, lost, tables', at', free', lost, s.root)
            && SameMaps(tables, at, tables', at', kernel)
  {
    hide Forest, Clean, InUse, Returned, InPage, Extends, OwnTranslate, Joined;
    JoinKeeps(tables, at, kernel, s, i, f, EmptyTable, free, free', lost);
    var tables', at' := Joined(tables, at[s], i, f, EmptyTable, s.root != kernel), at[Child(s, i) := f];
    forall r: nat, k | ValidKey(k) ensures OwnTranslate(tables', at', kernel, r, k) == OwnTranslate(tables, at, kernel,
      r, k) {
      JoinTranslateUpper(tables, at, kernel, s, i, f, r, k);
    }
  }

  lemma SameMapsTwice(t0: Tables, at0: Places, t1: Tables, at1: Places, t2: Tables, at2: Places, kernel: nat)
    requires SameMaps(t0, at0, t1, at1, kernel) && SameMaps(t1, at1, t2, at2, kernel)
    ensures SameMaps(t0, at0, t2, at2, kernel)
  {
    hide OwnTranslate;
  }

  lemma NotRoot(tables: Tables, at: Places, kernel: nat, s: Spot, i: nat)
    requires s.path != []
    ensures !KernelEntry(tables, at, kernel, s, i)
  {
  }

  /** A space's own top entry is not the kernel's, and stays its own. */
  lemma OwnEntry(tables: Tables, at: Places, kernel: nat, root: nat, a: nat)
    ensures |Spot(root, [a]).path| == 1 && Spot(root, [a]).root == root
  {
  }

  /** What split_large_page fills in. */
  function SplitTable(e: Entry): Table {
    SplitEntries(e, ENTRIES)
  }

  function SplitEntries(e: Entry, n: nat): (t: seq<Entry>)
    ensures |t| == n && forall i | 0 <= i < n ::
            t[i] == Entry(e.addr + i * PAGE_SIZE, true, e.writable, e.user, false, e.nx)
  {
    seq(n, i requires 0 <= i < n => Entry(e.addr + i * PAGE_SIZE, true, e.writable, e.user, false, e.nx))
  }

  lemma LargeCase(tables: Tables, at: Places, kernel: nat, s: Spot, i: nat)
    requires Forest(tables, at, kernel) && s in at && |s.path| == 2 && i < ENTRIES && at[s] in tables
             && tables[at[s]][i].large
    ensures s.root == kernel && LargePage(tables[at[s]][i]) && Child(s, i) !in at && !tables[at[s]][i].user
    ensures EntryAt(tables, at[s], i) == tables[at[s]][i]
  {
    LowerEntry(tables, at, kernel, s, i);
    hide Forest;
  }

  /** Splitting moves no page. */
  lemma SplitKeeps(tables: Tables, at: Places, kernel: nat, s: Spot, i: nat, f: nat,
                   free: seq<Range>, free': seq<Range>, lost: seq<Range>)
    requires Forest(tables, at, kernel) && s in at && |s.path| == 2 && i < ENTRIES && at[s] in tables && f !in tables
    requires s.root == kernel && LargePage(tables[at[s]][i]) && Child(s, i) !in at
    requires Clean(tables, free', lost) && InUse(free', lost, f)
    requires forall a: nat :: Returned(free, lost, a) <==> Returned(free', lost, a) || InPage(f, a)
    ensures var tables', at' := Joined(tables, at[s], i, f, SplitTable(tables[at[s]][i]), false), at[Child(s, i) := f];
            && Forest(tables', at', kernel) && Clean(tables', free', lost)
            && Extends(tables, at, free, lost, tables', at', free', lost, s.root)
            && SameMaps(tables, at, tables', at', kernel)
  {
    var e := tables[at[s]][i];
    hide Forest, Clean, InUse, Returned, InPage, Extends, OwnTranslate, Joined, SplitTable, Child;
    assert CanJoin(tables, at, kernel, s, i, f, SplitTable(e));
    JoinKeeps(tables, at, kernel, s, i, f, SplitTable(e), free, free', lost);
    var tables', at' := Joined(tables, at[s], i, f, SplitTable(e), false), at[Child(s, i) := f];
    forall r: nat, k | ValidKey(k) ensures OwnTranslate(tables', at', kernel, r, k) == OwnTranslate(tables, at, kernel,
      r, k) {
      JoinTranslate(tables, at, kernel, s, i, f, SplitTable(e), r, k);
      if s == Pd(r, k) && i == k.c { SplitReads(tables, at, kernel, s, i, r, k); }
    }
  }

  lemma SplitReads(tables: Tables, at: Places, kernel: nat, s: Spot, i: nat, r: nat, k: Key)
    requires s in at && at[s] in tables && i < ENTRIES && LargePage(tables[at[s]][i]) && ValidKey(k)
    requires s == Pd(r, k) && i == k.c
    ensures var e, e1 := tables[at[s]][i], SplitTable(tables[at[s]][i])[k.d];
            && e1.present
            && OwnTranslate(tables, at, kernel, r, k) == Some(Leaf(e1.addr, e1.writable, e1.user
              && r != kernel, !e1.nx))
  {
  }

  /** Page `key` of space `root` is now `leaf`; every other page of every space is where it was. */
  ghost predicate MapsOne(tables: Tables, at: Places, tables': Tables, at': Places, kernel: nat, root: nat, key: Key,
                          leaf: Leaf) {
    forall r: nat, k | ValidKey(k) ::
      OwnTranslate(tables', at', kernel, r, k) == if r == root && k == key then Some(leaf)
        else OwnTranslate(tables, at, kernel, r, k)
  }

  lemma DirectoryCases(tables: Tables, at: Places, kernel: nat, s: Spot, i: nat)
    requires Forest(tables, at, kernel) && s in at && |s.path| == 2 && i < ENTRIES && at[s] in tables
    ensures var e := tables[at[s]][i];
            && (e.large ==> s.root == kernel && e.present)
            && (!e.large && !e.present ==> EntryAt(tables, at[s], i) == Empty && Child(s, i) !in at)
            && (!e.large && e.present ==>
              Child(s, i) in at && EntryAt(tables, at[s], i) == Link(at[Child(s, i)], s.root != kernel)
                                          && (e.user <==> s.root != kernel))
  {
    LowerEntry(tables, at, kernel, s, i);
    hide Forest;
  }

  lemma ExtendsKeeps(tables: Tables, at: Places, free: seq<Range>, lost: seq<Range>,
                     tables': Tables, at': Places, free': seq<Range>, lost': seq<Range>, root: nat, s: Spot)
    requires Extends(tables, at, free, lost, tables', at', free', lost', root) && s in at
    ensures s in at' && at'[s] == at[s]
  {
  }

  lemma JoinLast(tables: Tables, at: Places, kernel: nat, s: Spot, i: nat, f: nat,
                 free: seq<Range>, free': seq<Range>, lost: seq<Range>)
    requires Forest(tables, at, kernel) && s in at && at[s] in tables && |s.path| == 2 && i < ENTRIES
    requires EntryAt(tables, at[s], i) == Empty && Child(s, i) !in at && f !in tables
    requires Clean(tables, free', lost) && InUse(free', lost, f)
    requires forall a: nat :: Returned(free, lost, a) <==> Returned(free', lost, a) || InPage(f, a)
    ensures var tables', at' := Joined(tables, at[s], i, f, EmptyTable, s.root != kernel), at[Child(s, i) := f];
            && Forest(tables', at', kernel) && Clean(tables', free', lost)
            && Extends(tables, at, free, lost, tables', at', free', lost, s.root)
            && SameMaps(tables, at, tables', at', kernel)
  {
    hide Forest, Clean, InUse, Returned, InPage, Extends, OwnTranslate, Joined, Child;
    assert CanJoin(tables, at, kernel, s, i, f, EmptyTable);
    JoinKeeps(tables, at, kernel, s, i, f, EmptyTable, free, free', lost);
    var tables', at' := Joined(tables, at[s], i, f, EmptyTable, s.root != kernel), at[Child(s, i) := f];
    forall r: nat, k | ValidKey(k) ensures OwnTranslate(tables', at', kernel, r, k) == OwnTranslate(tables, at, kernel,
      r, k) {
      JoinTranslate(tables, at, kernel, s, i, f, EmptyTable, r, k);
      if s == Pd(r, k) && i == k.c { NothingThere(tables, at, kernel, r, k); }
    }
  }

  lemma NothingThere(tables: Tables, at: Places, kernel: nat, r: nat, k: Key)
    requires Pd(r, k) in at && EntryAt(tables, at[Pd(r, k)], k.c) == Empty && Child(Pd(r, k), k.c) !in at
    ensures OwnTranslate(tables, at, kernel, r, k) == None
  {
    Levels(r, k);
    hide Pd, Pt, EntryAt, Child;
  }

  lemma KeyInRange(va: nat)
    ensures ValidKey(KeyOf(va))
  {
  }

  lemma PathLength(root: nat, a: nat, b: nat)
    ensures |Spot(root, [a, b]).path| == 2
  {
  }

  lemma LinkReads(tables: Tables, t: nat, i: nat, f: nat, user: bool)
    requires t in tables && i < ENTRIES && EntryAt(tables, t, i) == Link(f, user)
    ensures tables[t][i].addr == f
  {
  }

  lemma WrittenIs(tables: Tables, t: nat, i: nat, e: Entry)
    requires t in tables && i < ENTRIES
    ensures tables[t := tables[t][i := e]] == Written(tables, t, i, e)
  {
  }

  lemma LeafIs(pa: nat, writable: bool, user: bool, executable: bool)
    ensures var e := LeafEntry(pa, writable, user, executable);
            && e.present && (e.user <==> user)
            && LeafAt(pa, writable, user, executable) == Leaf(e.addr, e.writable, e.user, !e.nx)
  {
  }

  /** The final write of map_page_4k. */
  lemma LeafKeeps(tables: Tables, at: Places, kernel: nat, root: nat, key: Key, e: Entry, free: seq<Range>,
                  lost: seq<Range>)
    requires Forest(tables, at, kernel) && Clean(tables, free, lost) && ValidKey(key) && e.present
    requires var s := Child(Spot(root, [key.a, key.b]), key.c); s in at && at[s] in tables
    requires e.user <==> root != kernel
    ensures key.d < ENTRIES
    ensures var s := Child(Spot(root, [key.a, key.b]), key.c);
            var tables' := Written(tables, at[s], key.d, e);
            && Forest(tables', at, kernel) && Clean(tables', free, lost)
            && Extends(tables, at, free, lost, tables', at, free, lost, root)
            && MapsOne(tables, at, tables', at, kernel, root, key, Leaf(e.addr, e.writable, e.user, !e.nx))
  {
    var s := Child(Spot(root, [key.a, key.b]), key.c);
    assert |s.path| == 3 && s.root == root;
    assert CanSet(tables, at, kernel, s, key.d, e);
    SetForest(tables, at, kernel, s, key.d, e);
    SetFacts(tables, at, kernel, s, key.d, e);
    var tables' := Written(tables, at[s], key.d, e);
    WrittenReads(tables, at[s], key.d, e, 0, 0);
    WriteExtends(tables, at, s, key.d, e, free, lost);
    SameKeys(tables, tables', free, lost);
    hide Forest, Clean, Extends, OwnTranslate, Written, CanSet;
    forall r: nat, k | ValidKey(k)
      ensures OwnTranslate(tables', at, kernel, r, k) ==
              if r == root && k == key then Some(Leaf(e.addr, e.writable, e.user, !e.nx))
                else OwnTranslate(tables, at, kernel, r, k)
    {
      LeafTranslate(tables, at, kernel, s, key.d, e, r, k);
      PtSame(root, key, r, k);
    }
  }

  lemma PtSame(root: nat, key: Key, r: nat, k: Key)
    ensures Child(Spot(root, [key.a, key.b]), key.c) == Pt(r, k) && key.d == k.d <==> r == root && k == key
  {
    var x, y := Child(Spot(root, [key.a, key.b]), key.c).path, Pt(r, k).path;
    assert x == [key.a, key.b, key.c];
    assert x == y ==> x[0] == y[0] && x[1] == y[1] && x[2] == y[2];
  }

  lemma SameKeys(tables: Tables, tables': Tables, free: seq<Range>, lost: seq<Range>)
    requires Clean(tables, free, lost) && tables'.Keys == tables.Keys
    ensures Clean(tables', free, lost)
  {
    hide InUse, Returned;
  }

  lemma WriteExtends(tables: Tables, at: Places, s: Spot, i: nat, e: Entry, free: seq<Range>, lost: seq<Range>)
    requires s in at && at[s] in tables && i < ENTRIES && s.path != [] && forall t | t in at && t != s :: at[t] != at[s]
    ensures Extends(tables, at, free, lost, Written(tables, at[s], i, e), at, free, lost, s.root)
  {
    WriteTop(tables, at, s, i, e);
    hide Returned, TopKept;
  }

  lemma WriteTop(tables: Tables, at: Places, s: Spot, i: nat, e: Entry)
    requires s in at && at[s] in tables && i < ENTRIES && s.path != [] && forall t | t in at && t != s :: at[t] != at[s]
    ensures TopKept(tables, at, Written(tables, at[s], i, e), at)
  {
    hide EntryAt, Written, Child;
    forall t, j: nat | t in at && t.path == [] && j < ENTRIES
      ensures EntryAt(Written(tables, at[s], i, e), at[t], j) == EntryAt(tables, at[t], j)
    {
      WrittenReads(tables, at[s], i, e, at[t], j);
    }
  }

  lemma MapsAfter(t0: Tables, at0: Places, t1: Tables, at1: Places, t2: Tables, at2: Places, kernel: nat, root: nat,
                  key: Key, leaf: Leaf)
    requires SameMaps(t0, at0, t1, at1, kernel) && MapsOne(t1, at1, t2, at2, kernel, root, key, leaf)
    ensures MapsOne(t0, at0, t2, at2, kernel, root, key, leaf)
  {
    hide OwnTranslate;
  }

  // --------------------------------------------------- what the processor sees

  lemma {:induction false} OverlaidNone(k: Key, p: nat, q: nat, n: nat, writable: bool, user: bool, executable: bool,
                                        before: Option<Leaf>)
    requires Overlaid(None, k, p, q, n, writable, user, executable) == None
    ensures Overlaid(before, k, p, q, n, writable, user, executable) == before
    decreases n
  {
    if n > 0 {
      OverlaidNone(k, p, q, n - 1, writable, user, executable, before);
    }
  }

  /** The top entry of a space: none, its own, or the kernel's. */
  datatype Top = NoTop | OwnTop | KernelTop

  ghost function TopOf(tables: Tables, at: Places, kernel: nat, r: nat, a: nat): Top {
    if EntryAt(tables, r, a) == Empty then NoTop
    else if r == kernel || Spot(r, [a]) in at then OwnTop
    else KernelTop
  }

  lemma TopDecides(tables: Tables, at: Places, kernel: nat, r: nat, k: Key)
    requires Forest(tables, at, kernel) && Spot(r, []) in at && ValidKey(k)
    ensures TopOf(tables, at, kernel, r, k.a) != KernelTop ==>
            Translate(tables, r, k) == OwnTranslate(tables, at, kernel, r, k)
    ensures TopOf(tables, at, kernel, r, k.a) == KernelTop ==>
              r != kernel && Translate(tables, r, k) == OwnTranslate(tables, at, kernel, kernel, k)
              && OwnTranslate(tables, at, kernel, r, k) == None
  {
    TranslateOwned(tables, at, kernel, r, k);
    UpIn(tables, at, kernel, Pd(r, k));
    PdUp(r, k);
    hide Forest, Translate, Pd, EntryAt;
  }

  lemma PdUp(r: nat, k: Key)
    ensures Up(Pd(r, k)) == Spot(r, [k.a]) && Pd(r, k).path != []
  {
  }

  /** The kind of a top entry stays, except that nothing may become the space's own. */
  lemma TopStays(t0: Tables, at0: Places, free0: seq<Range>, t1: Tables, at1: Places, free1: seq<Range>,
                 lost: seq<Range>,
                 kernel: nat, root: nat, r: nat, a: nat)
    requires Forest(t0, at0, kernel) && Forest(t1, at1, kernel)
             && Extends(t0, at0, free0, lost, t1, at1, free1, lost, root)
    requires Spot(r, []) in at0 && a < ENTRIES && (r == root || root != kernel)
    ensures TopOf(t0, at0, kernel, r, a) == KernelTop ==> TopOf(t1, at1, kernel, r, a) == KernelTop
    ensures TopOf(t1, at1, kernel, r, a) == KernelTop ==> TopOf(t0, at0, kernel, r, a) == KernelTop
  {
    SpotTable(t0, at0, kernel, Spot(r, []));
    TopEntry(t0, at0, kernel, r, a);
    TopEntry(t1, at1, kernel, r, a);
    Paths(r, a, 0, 0);
    TopKeptAt(t0, at0, free0, t1, at1, free1, lost, root, Spot(r, []), a);
    hide Forest, Extends, EntryAt;
  }

  lemma TopKeptAt(t0: Tables, at0: Places, free0: seq<Range>, t1: Tables, at1: Places, free1: seq<Range>,
                  lost: seq<Range>,
                  root: nat, t: Spot, a: nat)
    requires Extends(t0, at0, free0, lost, t1, at1, free1, lost, root) && t in at0 && t.path == [] && a < ENTRIES
    ensures EntryAt(t1, at0[t], a) == EntryAt(t0, at0[t], a) || (!EntryAt(t0, at0[t], a).present && Child(t, a) in at1)
    ensures forall s | s in at0 :: s in at1 && at1[s] == at0[s]
  {
    hide Returned, Added, EntryAt;
  }

  /** Mapping a range, as the processor sees it: the space's translation is overlaid with the
      range, and no private space's range shows in any other space. */
  lemma RangeTranslates(t0: Tables, at0: Places, free0: seq<Range>, t1: Tables, at1: Places, free1: seq<Range>,
                        lost: seq<Range>,
                        kernel: nat, root: nat, p: nat, q: nat, n: nat, writable: bool, user: bool, executable: bool,
                          k: Key)
    requires Forest(t0, at0, kernel) && Forest(t1, at1, kernel)
             && Extends(t0, at0, free0, lost, t1, at1, free1, lost, root)
    requires MapsRange(t0, at0, t1, at1, kernel, root, p, q, n, writable, user, executable)
    requires Spot(root, []) in at0 && ValidKey(k)
    ensures Translate(t1, root, k) == Overlaid(Translate(t0, root, k), k, p, q, n, writable, user, executable)
    ensures root != kernel ==> forall r | Spot(r, []) in at0 && r != root :: Translate(t1, r, k) == Translate(t0, r, k)
  {
    hide Forest, Extends, Translate, OwnTranslate, Overlaid, TopOf;
    InExtended(t0, at0, free0, t1, at1, free1, lost, root);
    TopDecides(t0, at0, kernel, root, k);
    TopDecides(t1, at1, kernel, root, k);
    TopStays(t0, at0, free0, t1, at1, free1, lost, kernel, root, root, k.a);
    RangeAt(t0, at0, t1, at1, kernel, root, p, q, n, writable, user, executable, root, k);
    RangeAt(t0, at0, t1, at1, kernel, root, p, q, n, writable, user, executable, kernel, k);
    if TopOf(t1, at1, kernel, root, k.a) == KernelTop {
      OverlaidNone(k, p, q, n, writable, user, executable, Translate(t0, root, k));
    }
    if root != kernel {
      forall r | Spot(r, []) in at0 && r != root ensures Translate(t1, r, k) == Translate(t0, r, k) {
        TopDecides(t0, at0, kernel, r, k);
        TopDecides(t1, at1, kernel, r, k);
        TopStays(t0, at0, free0, t1, at1, free1, lost, kernel, root, r, k.a);
        RangeAt(t0, at0, t1, at1, kernel, root, p, q, n, writable, user, executable, r, k);
      }
    }
  }

  lemma RangeAt(t0: Tables, at0: Places, t1: Tables, at1: Places, kernel: nat, root: nat,
                p: nat, q: nat, n: nat, writable: bool, user: bool, executable: bool, r: nat, k: Key)
    requires MapsRange(t0, at0, t1, at1, kernel, root, p, q, n, writable, user, executable) && ValidKey(k)
    ensures OwnTranslate(t1, at1, kernel, r, k) ==
            if r == root then Overlaid(OwnTranslate(t0, at0, kernel, r, k), k, p, q, n, writable, user, executable)
            else OwnTranslate(t0, at0, kernel, r, k)
  {
    hide OwnTranslate, Overlaid;
  }

  lemma InExtended(t0: Tables, at0: Places, free0: seq<Range>, t1: Tables, at1: Places, free1: seq<Range>,
                   lost: seq<Range>, root: nat)
    requires Extends(t0, at0, free0, lost, t1, at1, free1, lost, root)
    ensures forall s | s in at0 :: s in at1
  {
    hide Returned, Added, TopKept;
  }

  // ------------------------------------------------------------ destruction

  ghost predicate LostApart(free: seq<Range>, lost: seq<Range>) {
    && (forall a: nat | Holds(lost, a) :: !Holds(free, a))
    && !Returned(free, lost, 0)
  }

  /** Tables are whole pages. */
  ghost predicate PageSized(tables: Tables) {
    forall f | f in tables :: f > 0 && f % PAGE_SIZE == 0
  }

  predicate Under(u: Spot, s: Spot) {
    u.root == s.root && |s.path| < |u.path| && u.path[..|s.path|] == s.path
  }

  /** Address `a` lies in a table below `s` through one of the first `n` entries. */
  ghost predicate BelowTo(at: Places, s: Spot, n: nat, a: nat) {
    exists u :: u in at && Under(u, s) && u.path[|s.path|] < n && InPage(at[u], a)
  }

  ghost predicate AllInUse(at: Places, s: Spot, free: seq<Range>, lost: seq<Range>) {
    forall u | u in at && Under(u, s) :: InUse(free, lost, at[u])
  }

  lemma NothingBelow(at: Places, s: Spot, tables: Tables)
    ensures forall a: nat :: !BelowTo(at, s, 0, a)
    ensures FramesTo(at, s, 0) == {} && tables - FramesTo(at, s, 0) == tables
  {
  }

  /** The tables below `s` through one of the first `n` entries. */
  ghost function FramesTo(at: Places, s: Spot, n: nat): set<nat> {
    set u | u in at && Under(u, s) && u.path[|s.path|] < n :: at[u]
  }

  /** The table at `s` and all below it are as they were. */
  ghost predicate StillThere(tables: Tables, whole: Tables, at: Places, s: Spot) {
    forall u | u in at && (u == s || Under(u, s)) && at[u] in whole :: at[u] in tables && tables[at[u]] == whole[at[u]]
  }

  ghost predicate OwnedAt(at: Places, root: nat, a: nat) {
    exists u :: u in at && u.root == root && InPage(at[u], a)
  }

  /** Different tables are different pages. */
  lemma PagesApart(f: nat, g: nat, a: nat)
    requires f % PAGE_SIZE == 0 && g % PAGE_SIZE == 0 && f != g
    ensures !(InPage(f, a) && InPage(g, a))
  {
  }

  /** Below one entry: the table there and all below it. */
  lemma OneMoreBelow(at: Places, s: Spot, i: nat)
    requires Child(s, i) in at
    ensures forall a: nat :: BelowTo(at, s, i + 1, a) <==>
              BelowTo(at, s, i, a) || InPage(at[Child(s, i)], a) || BelowAny(at, Child(s, i), a)
  {
    hide InPage;
    var c := Child(s, i);
    forall a: nat ensures BelowTo(at, s, i + 1, a) <==> BelowTo(at, s, i, a) || InPage(at[c], a) || BelowAny(at, c, a) {
      if BelowTo(at, s, i + 1, a) {
        var u :| u in at && Under(u, s) && u.path[|s.path|] < i + 1 && InPage(at[u], a);
        UnderChild(s, i, u);
      }
      if InPage(at[c], a) {
        UnderChild(s, i, c);
        assert c in at && Under(c, s) && c.path[|s.path|] < i + 1;
      }
      if BelowAny(at, c, a) {
        var u :| u in at && Under(u, c) && InPage(at[u], a);
        UnderChild(s, i, u);
      }
    }
  }

  ghost predicate BelowAny(at: Places, s: Spot, a: nat) {
    exists u :: u in at && Under(u, s) && InPage(at[u], a)
  }

  lemma UnderChild(s: Spot, i: nat, u: Spot)
    ensures Under(Child(s, i), s) && Child(s, i).path[|s.path|] == i
    ensures Under(u, s) && u.path[|s.path|] == i <==> u == Child(s, i) || Under(u, Child(s, i))
  {
    var c := Child(s, i);
    assert c.path[..|s.path|] == s.path;
    if Under(u, s) && u.path[|s.path|] == i {
      assert u.path[..|s.path| + 1] == s.path + [i];
      if |u.path| == |c.path| {
        assert u.path == c.path;
      }
    }
    if Under(u, c) {
      assert u.path[..|s.path|] == u.path[..|c.path|][..|s.path|];
      assert u.path[|s.path|] == u.path[..|c.path|][|s.path|];
    }
  }

  lemma {:induction false} PrefixIn(tables: Tables, at: Places, kernel: nat, u: Spot, n: nat)
    requires Forest(tables, at, kernel) && u in at && n <= |u.path|
    ensures Spot(u.root, u.path[..n]) in at && (n > 0 ==> u.path[n - 1] < ENTRIES)
    decreases |u.path| - n
  {
    hide AllEntries, OnePlace;
    if n == |u.path| {
      assert u.path[..n] == u.path;
      assert SpotOk(tables, at, kernel, u);
    } else {
      PrefixIn(tables, at, kernel, u, n + 1);
      var v := Spot(u.root, u.path[..n + 1]);
      assert SpotOk(tables, at, kernel, v);
      assert Up(v) == Spot(u.root, u.path[..n]);
      if n > 0 {
        assert SpotOk(tables, at, kernel, Up(v));
      }
    }
  }

  lemma BelowAll(tables: Tables, at: Places, kernel: nat, s: Spot)
    requires Forest(tables, at, kernel)
    ensures forall a: nat :: BelowTo(at, s, ENTRIES, a) <==> BelowAny(at, s, a)
  {
    hide Forest, InPage;
    forall u | u in at && Under(u, s) ensures u.path[|s.path|] < ENTRIES {
      PrefixIn(tables, at, kernel, u, |s.path| + 1);
    }
  }

  lemma ChildCases(tables: Tables, at: Places, kernel: nat, s: Spot, i: nat)
    requires Forest(tables, at, kernel) && s in at && at[s] in tables && s.path != [] && i < ENTRIES
    ensures var e := tables[at[s]][i];
            if e.present && !e.large && |s.path| < 3 then Child(s, i) in at && e.addr == at[Child(s, i)]
              else Child(s, i) !in at
  {
    ChildLevel(s, i);
    if Child(s, i) in at { SpotTable(tables, at, kernel, Child(s, i)); }
    if |s.path| < 3 {
      SpotTable(tables, at, kernel, s);
      LowerEntry(tables, at, kernel, s, i);
    }
    hide Forest, Child;
  }

  lemma StepUnder(u: Spot, s: Spot)
    requires Under(u, s)
    ensures Spot(u.root, u.path[..|s.path| + 1]) == Child(s, u.path[|s.path|])
  {
    assert u.path[..|s.path| + 1] == u.path[..|s.path|] + [u.path[|s.path|]];
  }

  lemma ChildlessStep(tables: Tables, at: Places, kernel: nat, s: Spot, i: nat)
    requires Forest(tables, at, kernel) && Child(s, i) !in at
    ensures forall a: nat :: BelowTo(at, s, i + 1, a) <==> BelowTo(at, s, i, a)
    ensures FramesTo(at, s, i + 1) == FramesTo(at, s, i)
  {
    hide Forest, InPage;
    forall u | u in at && Under(u, s) ensures u.path[|s.path|] != i {
      PrefixIn(tables, at, kernel, u, |s.path| + 1);
      StepUnder(u, s);
    }
  }

  /** Address `a` lies in a table other than the one at `u`. */
  ghost predicate Elsewhere(at: Places, u: Spot, a: nat) {
    exists v :: v in at && v != u && InPage(at[v], a)
  }

  lemma StillUsed(tables: Tables, at: Places, kernel: nat, u: Spot, free: seq<Range>, lost: seq<Range>,
                  free': seq<Range>, lost': seq<Range>)
    requires Forest(tables, at, kernel) && PageSized(tables) && u in at && InUse(free, lost, at[u])
    requires forall a: nat | Returned(free', lost', a) :: Returned(free, lost, a) || Elsewhere(at, u, a)
    ensures InUse(free', lost', at[u])
  {
    hide Returned, InPage, AllEntries;
    forall a: nat | InPage(at[u], a) ensures !Returned(free', lost', a) {
      if Elsewhere(at, u, a) {
        var v :| v in at && v != u && InPage(at[v], a);
        assert SpotOk(tables, at, kernel, u) && SpotOk(tables, at, kernel, v);
        PagesApart(at[u], at[v], a);
      }
    }
  }

  lemma BelowElsewhere(at: Places, s: Spot, i: nat, u: Spot, a: nat)
    requires Under(u, s) && u.path[|s.path|] >= i && BelowTo(at, s, i, a)
    ensures Elsewhere(at, u, a)
  {
    hide InPage;
  }

  lemma UsedBelow(tables: Tables, at: Places, kernel: nat, s: Spot, i: nat, free: seq<Range>, lost: seq<Range>,
                  free': seq<Range>, lost': seq<Range>)
    requires Forest(tables, at, kernel) && PageSized(tables) && Child(s, i) in at && AllInUse(at, s, free, lost)
    requires forall a: nat :: Returned(free', lost', a) <==> Returned(free, lost, a) || BelowTo(at, s, i, a)
    ensures AllInUse(at, Child(s, i), free', lost')
  {
    hide Forest, PageSized, InUse, Returned, BelowTo, Elsewhere;
    forall u | u in at && Under(u, Child(s, i)) ensures InUse(free', lost', at[u]) {
      UnderChild(s, i, u);
      forall a: nat | Returned(free', lost', a) ensures Returned(free, lost, a) || Elsewhere(at, u, a) {
        if BelowTo(at, s, i, a) { BelowElsewhere(at, s, i, u, a); }
      }
      StillUsed(tables, at, kernel, u, free, lost, free', lost');
    }
  }

  lemma TableUsed(tables: Tables, at: Places, kernel: nat, s: Spot, i: nat, free: seq<Range>, lost: seq<Range>,
                  free1: seq<Range>, lost1: seq<Range>, free': seq<Range>, lost': seq<Range>)
    requires Forest(tables, at, kernel) && PageSized(tables) && Child(s, i) in at && AllInUse(at, s, free, lost)
    requires forall a: nat :: Returned(free1, lost1, a) <==> Returned(free, lost, a) || BelowTo(at, s, i, a)
    requires forall a: nat :: Returned(free', lost', a) <==> Returned(free1, lost1, a) || BelowAny(at, Child(s, i), a)
    ensures InUse(free', lost', at[Child(s, i)])
  {
    hide Forest, PageSized, InUse, Returned, BelowTo, Elsewhere, BelowAny;
    var c := Child(s, i);
    UnderChild(s, i, c);
    forall a: nat | Returned(free', lost', a) ensures Returned(free, lost, a) || Elsewhere(at, c, a) {
      if BelowTo(at, s, i, a) { BelowElsewhere(at, s, i, c, a); }
      if BelowAny(at, c, a) { UnderElsewhere(at, c, a); }
    }
    StillUsed(tables, at, kernel, c, free, lost, free', lost');
  }

  lemma UnderElsewhere(at: Places, c: Spot, a: nat)
    requires BelowAny(at, c, a)
    ensures Elsewhere(at, c, a)
  {
    hide InPage;
  }

  lemma UsedIsClear(free: seq<Range>, lost: seq<Range>, f: nat)
    requires InUse(free, lost, f)
    ensures f > 0 && f % PAGE_SIZE == 0 && ClearOf(free, f, f + 1 * PAGE_SIZE)
  {
    hide Holds;
    forall a: nat | f <= a < f + 1 * PAGE_SIZE ensures !Holds(free, a) {
      assert InPage(f, a);
    }
  }

  lemma GivenBack(free: seq<Range>, lost: seq<Range>, free': seq<Range>, lost': seq<Range>, f: nat)
    requires LostApart(free, lost) && InUse(free, lost, f)
    requires if |free| >= MAX_RANGES then free' == free && lost' == lost + [Range(f, 1)]
             else lost' == lost && forall a: nat :: Holds(free', a) <==>
               Holds(free, a) || Within(f, f + 1 * PAGE_SIZE, a)
    ensures LostApart(free', lost') && lost <= lost'
    ensures forall a: nat :: Returned(free', lost', a) <==> Returned(free, lost, a) || InPage(f, a)
  {
    hide Holds;
    forall a: nat ensures Holds(lost + [Range(f, 1)], a) <==> Holds(lost, a) || InPage(f, a) {
      HoldsConcat(lost, [Range(f, 1)], a);
      HoldsOne(Range(f, 1), a);
    }
    assert !InPage(f, 0);
    forall a: nat | Holds(lost', a) ensures !Holds(free', a) {
      if InPage(f, a) { assert !Returned(free, lost, a); }
    }
  }

  // --------------------------------------------------------------- creation

  lemma NewSpace(tables: Tables, at: Places, kernel: nat, root: nat, free: seq<Range>, lost: seq<Range>)
    requires Forest(tables, at, kernel) && Clean(tables, free, lost) && root !in tables && InUse(free, lost, root)
    ensures CanOpen(tables, at, kernel, root) && kernel in tables && root != kernel
    ensures Forest(tables[root := tables[kernel]], at[Spot(root, []) := root], kernel)
    ensures Clean(tables[root := tables[kernel]], free, lost)
  {
    SpotTable(tables, at, kernel, Spot(kernel, []));
    forall s | s in at ensures s.root != root {
      PrefixIn(tables, at, kernel, s, 0);
      assert s.path[..0] == [];
      SpotTable(tables, at, kernel, Spot(s.root, []));
    }
    hide Forest, InUse, Returned;
    OpenForest(tables, at, kernel, root);
  }

  lemma CopyTranslates(tables: Tables, at: Places, kernel: nat, root: nat, k: Key)
    requires Forest(tables, at, kernel) && root !in tables && kernel in tables && root != kernel
    ensures Translate(tables[root := tables[kernel]], root, k) == Translate(tables, kernel, k)
  {
    var tables' := tables[root := tables[kernel]];
    if k.a < ENTRIES { TopEntry(tables, at, kernel, kernel, k.a); }
    NeverEntered(tables, at, kernel, k);
    hide Forest;
  }

  /** The kernel's walk never comes across a page that is no table yet. */
  lemma NeverEntered(tables: Tables, at: Places, kernel: nat, k: Key)
    requires Forest(tables, at, kernel)
    ensures var e4 := EntryAt(tables, kernel, k.a);
            var e3 := EntryAt(tables, e4.addr, k.b);
            var e2 := EntryAt(tables, e3.addr, k.c);
            && (e4.present ==> e4.addr in tables)
            && (e4.present && e3.present ==> !e3.large && e3.addr in tables)
            && (e4.present && e3.present && e2.present && !e2.large ==> e2.addr in tables)
  {
    var e4 := EntryAt(tables, kernel, k.a);
    if e4.present {
      TopEntry(tables, at, kernel, kernel, k.a);
      Paths(kernel, k.a, k.b, k.c);
      SpotTable(tables, at, kernel, Spot(kernel, [k.a]));
      var e3 := EntryAt(tables, e4.addr, k.b);
      if e3.present {
        LowerEntry(tables, at, kernel, Spot(kernel, [k.a]), k.b);
        SpotTable(tables, at, kernel, Spot(kernel, [k.a, k.b]));
        var e2 := EntryAt(tables, e3.addr, k.c);
        if e2.present && !e2.large {
          LowerEntry(tables, at, kernel, Spot(kernel, [k.a, k.b]), k.c);
          SpotTable(tables, at, kernel, Spot(kernel, [k.a, k.b, k.c]));
        }
      }
    }
    hide Forest;
  }

  lemma FrameOnce(tables: Tables, at: Places, kernel: nat, u: Spot, v: Spot)
    requires Forest(tables, at, kernel) && u in at && v in at && at[u] == at[v]
    ensures u == v && at[u] in tables
  {
    hide AllEntries;
    assert SpotOk(tables, at, kernel, u);
  }

  /** A table being worked on is not among those already gone. */
  lemma TableStays(tables0: Tables, whole: Tables, at: Places, kernel: nat, s: Spot, i: nat)
    requires Forest(whole, at, kernel) && s in at && at[s] in whole && StillThere(tables0, whole, at, s)
    ensures at[s] in tables0 - FramesTo(at, s, i) && (tables0 - FramesTo(at, s, i))[at[s]] == whole[at[s]]
  {
    FramesApart(whole, at, kernel, s, i, s);
    hide Forest;
  }

  lemma FramesApart(whole: Tables, at: Places, kernel: nat, s: Spot, i: nat, w: Spot)
    requires Forest(whole, at, kernel) && w in at && !Under(w, s)
    ensures at[w] !in FramesTo(at, s, i)
  {
    hide AllSpots, AllEntries;
    forall u | u in at && Under(u, s) ensures at[u] != at[w] {
    }
  }

  lemma KernelStays(whole: Tables, at: Places, kernel: nat, s: Spot, i: nat)
    requires Forest(whole, at, kernel) && Spot(kernel, []) in at && at[Spot(kernel, [])] == kernel && kernel in whole
             && s.root != kernel
    ensures kernel in whole - FramesTo(at, s, i) && (whole - FramesTo(at, s, i))[kernel] == whole[kernel]
  {
    FramesApart(whole, at, kernel, s, i, Spot(kernel, []));
    hide Forest;
  }

  lemma KernelSpot(tables: Tables, at: Places, kernel: nat)
    requires Forest(tables, at, kernel)
    ensures Spot(kernel, []) in at && at[Spot(kernel, [])] == kernel && kernel in tables
  {
    SpotTable(tables, at, kernel, Spot(kernel, []));
  }

  lemma ThereBelow(tables0: Tables, whole: Tables, at: Places, kernel: nat, s: Spot, i: nat)
    requires Forest(whole, at, kernel) && Child(s, i) in at && StillThere(tables0, whole, at, s)
    ensures StillThere(tables0 - FramesTo(at, s, i), whole, at, Child(s, i))
  {
    hide Forest;
    var c := Child(s, i);
    forall u | u in at && (u == c || Under(u, c)) && at[u] in whole
      ensures at[u] in tables0 - FramesTo(at, s, i) && (tables0 - FramesTo(at, s, i))[at[u]] == whole[at[u]]
    {
      UnderChild(s, i, u);
      if at[u] in FramesTo(at, s, i) {
        var v :| v in at && Under(v, s) && v.path[|s.path|] < i && at[v] == at[u];
        FrameOnce(whole, at, kernel, u, v);
      }
    }
  }

  lemma FramesStep(whole: Tables, at: Places, kernel: nat, s: Spot, i: nat)
    requires Forest(whole, at, kernel) && Child(s, i) in at
    ensures FramesTo(at, s, i + 1) == FramesTo(at, s, i) + FramesTo(at, Child(s, i), ENTRIES) + {at[Child(s, i)]}
  {
    hide Forest;
    var c := Child(s, i);
    forall f ensures f in FramesTo(at, s, i + 1) <==>
                     f in FramesTo(at, s, i) || f in FramesTo(at, c, ENTRIES) || f == at[c] {
      if f in FramesTo(at, s, i + 1) {
        var u :| u in at && Under(u, s) && u.path[|s.path|] < i + 1 && at[u] == f;
        UnderChild(s, i, u);
        if Under(u, c) { PrefixIn(whole, at, kernel, u, |c.path| + 1); }
      }
      if f in FramesTo(at, c, ENTRIES) {
        var u :| u in at && Under(u, c) && at[u] == f;
        UnderChild(s, i, u);
      }
      UnderChild(s, i, c);
    }
  }

  /** What the code's tests on a root entry of a private space mean. */
  lemma TopCases(tables: Tables, at: Places, kernel: nat, root: nat, i: nat)
    requires Forest(tables, at, kernel) && Spot(root, []) in at && root != kernel && i < ENTRIES && root in tables
             && kernel in tables
    ensures var e := tables[root][i];
            if e.present && e != tables[kernel][i] && !e.large then Child(Spot(root, []), i) in at
              && e.addr == at[Child(Spot(root, []), i)]
            else Child(Spot(root, []), i) !in at
  {
    TopEntry(tables, at, kernel, root, i);
    TopEntry(tables, at, kernel, kernel, i);
    Paths(root, i, 0, 0);
    hide Forest, Child;
  }

  lemma CleanParts(tables: Tables, at: Places, kernel: nat, s: Spot, free: seq<Range>, lost: seq<Range>)
    requires Forest(tables, at, kernel) && Clean(tables, free, lost)
    ensures LostApart(free, lost) && PageSized(tables) && AllInUse(at, s, free, lost)
            && StillThere(tables, tables, at, s)
    ensures s in at ==> InUse(free, lost, at[s])
  {
    hide Returned, AllEntries, OnePlace;
    forall f | f in tables ensures f > 0 && f % PAGE_SIZE == 0 {
      assert InUse(free, lost, f);
    }
    forall u | u in at ensures InUse(free, lost, at[u]) {
      assert SpotOk(tables, at, kernel, u);
    }
  }

  lemma RootUsed(tables: Tables, at: Places, kernel: nat, s: Spot, free: seq<Range>, lost: seq<Range>,
                 free': seq<Range>, lost': seq<Range>)
    requires Forest(tables, at, kernel) && PageSized(tables) && s in at && InUse(free, lost, at[s])
    requires forall a: nat :: Returned(free', lost', a) <==> Returned(free, lost, a) || BelowTo(at, s, ENTRIES, a)
    requires forall a: nat :: BelowTo(at, s, ENTRIES, a) <==> BelowAny(at, s, a)
    ensures InUse(free', lost', at[s])
  {
    hide Forest, PageSized, InUse, Returned, BelowTo, Elsewhere, BelowAny;
    forall a: nat | Returned(free', lost', a) ensures Returned(free, lost, a) || Elsewhere(at, s, a) {
      if BelowAny(at, s, a) { UnderElsewhere(at, s, a); }
    }
    StillUsed(tables, at, kernel, s, free, lost, free', lost');
  }

  /** Below a root, and the root: all a space owns. */
  lemma WholeSpace(tables: Tables, at: Places, kernel: nat, root: nat)
    requires Forest(tables, at, kernel) && Spot(root, []) in at
    ensures FramesTo(at, Spot(root, []), ENTRIES) + {at[Spot(root, [])]} == Owned(at, root)
    ensures forall a: nat :: OwnedAt(at, root, a) <==> BelowAny(at, Spot(root, []), a) || InPage(at[Spot(root, [])], a)
  {
    hide Forest, InPage;
    var s := Spot(root, []);
    forall u | u in at && u.root == root ensures u == s || (Under(u, s) && u.path[0] < ENTRIES) {
      if u.path != [] {
        assert u.path[..0] == [];
        PrefixIn(tables, at, kernel, u, 1);
      }
    }
    forall f ensures f in FramesTo(at, s, ENTRIES) + {at[s]} <==> f in Owned(at, root) {
      if f in Owned(at, root) {
        var u :| u in at && u.root == root && at[u] == f;
        assert u == s || (Under(u, s) && u.path[0] < ENTRIES);
      }
    }
  }

  lemma SpaceGone(whole: Tables, at: Places, kernel: nat, root: nat, free: seq<Range>, lost: seq<Range>,
                  free': seq<Range>, lost': seq<Range>)
    requires Forest(whole, at, kernel) && Clean(whole, free, lost) && Spot(root, []) in at && root != kernel
             && LostApart(free', lost')
    requires at[Spot(root, [])] == root
    requires forall a: nat :: BelowTo(at, Spot(root, []), ENTRIES, a) <==> BelowAny(at, Spot(root, []), a)
    requires forall a: nat :: Returned(free', lost', a) <==>
               Returned(free, lost, a) || BelowTo(at, Spot(root, []), ENTRIES, a) || InPage(root, a)
    ensures var tables' := whole - FramesTo(at, Spot(root, []), ENTRIES) - {root};
            && tables' == whole - Owned(at, root) && Forest(tables', Others(at, root), kernel)
              && Clean(tables', free', lost')
    ensures forall a: nat :: Returned(free', lost', a) <==> Returned(free, lost, a) || OwnedAt(at, root, a)
  {
    WholeSpace(whole, at, kernel, root);
    CloseForest(whole, at, kernel, root);
    hide Forest, Returned, InPage, BelowTo, BelowAny, FramesTo, Owned, Others;
    assert whole - FramesTo(at, Spot(root, []), ENTRIES) - {root} == whole - Owned(at, root);
    OthersUsed(whole, at, kernel, root, free, lost, free', lost');
  }

  lemma OthersUsed(whole: Tables, at: Places, kernel: nat, root: nat, free: seq<Range>, lost: seq<Range>,
                   free': seq<Range>, lost': seq<Range>)
    requires Forest(whole, at, kernel) && Clean(whole, free, lost) && LostApart(free', lost')
    requires forall a: nat :: Returned(free', lost', a) <==> Returned(free, lost, a) || OwnedAt(at, root, a)
    ensures Clean(whole - Owned(at, root), free', lost')
  {
    CleanParts(whole, at, kernel, Spot(root, []), free, lost);
    hide AllSpots, AllEntries, Returned, InPage;
    forall f | f in whole - Owned(at, root) ensures InUse(free', lost', f) {
      assert InUse(free, lost, f);
      forall a: nat | InPage(f, a) ensures !Returned(free', lost', a) {
        if OwnedAt(at, root, a) {
          var u :| u in at && u.root == root && InPage(at[u], a);
          assert at[u] in Owned(at, root);
          FramePage(whole, at, kernel, u);
          PagesApart(f, at[u], a);
        }
      }
    }
  }

  lemma FramePage(whole: Tables, at: Places, kernel: nat, u: Spot)
    requires Forest(whole, at, kernel) && PageSized(whole) && u in at
    ensures at[u] % PAGE_SIZE == 0
  {
    hide AllEntries;
    assert SpotOk(whole, at, kernel, u);
  }

  // ------------------------------------------------------ the order of returns

  /** The tables below `s` through its first `n` entries, in the order they are handed back: entry
      after entry, what hangs below a table before the table. */
  ghost function TablesBelow(at: Places, s: Spot, n: nat): seq<Range>
    decreases 4 - |s.path|, n
  {
    if n == 0 || |s.path| >= 4 then []
    else
      var c := Child(s, n - 1);
      TablesBelow(at, s, n - 1) + if c in at then TablesBelow(at, c, ENTRIES) + [Range(at[c], 1)] else []
  }

  /** All tables of a space, its root last. */
  ghost function SpaceTables(at: Places, root: nat): seq<Range> {
    TablesBelow(at, Spot(root, []), ENTRIES) + [Range(root, 1)]
  }

  lemma SpaceTablesAre(at: Places, root: nat)
    ensures SpaceTables(at, root) == TablesBelow(at, Spot(root, []), ENTRIES) + [Range(root, 1)]
  {
    hide TablesBelow;
  }

  lemma TablesNone(at: Places, s: Spot)
    ensures TablesBelow(at, s, 0) == []
  {
  }

  lemma TablesSame(at: Places, s: Spot, i: nat)
    requires Child(s, i) !in at
    ensures TablesBelow(at, s, i + 1) == TablesBelow(at, s, i)
  {
  }

  lemma TablesMore(at: Places, s: Spot, i: nat)
    requires Child(s, i) in at && |s.path| < 4
    ensures TablesBelow(at, s, i + 1) ==
            TablesBelow(at, s, i) + (TablesBelow(at, Child(s, i), ENTRIES) + [Range(at[Child(s, i)], 1)])
  {
  }

  /** Each table below is there, and only once. */
  lemma {:induction false} TablesOnce(tables: Tables, at: Places, kernel: nat, s: Spot, n: nat)
    requires Forest(tables, at, kernel) && s in at
    ensures |TablesBelow(at, s, n)| == |FramesTo(at, s, n)|
    ensures forall b :: b in TablesBelow(at, s, n) <==> b.pages == 1 && b.base in FramesTo(at, s, n)
    decreases 4 - |s.path|, n
  {
    hide *;
    SpotTable(tables, at, kernel, s);
    if n == 0 {
      TablesNone(at, s);
      NoFrames(at, s);
    } else {
      var c := Child(s, n - 1);
      ChildLevel(s, n - 1);
      TablesOnce(tables, at, kernel, s, n - 1);
      if c in at {
        SpotTable(tables, at, kernel, c);
        TablesOnce(tables, at, kernel, c, ENTRIES);
        TablesMore(at, s, n - 1);
        FramesStep(tables, at, kernel, s, n - 1);
        FramesDisjoint(tables, at, kernel, s, n - 1);
        var a, b := FramesTo(at, s, n - 1), FramesTo(at, c, ENTRIES);
        assert |a + b + {at[c]}| == |a| + |b| + 1;
      } else {
        TablesSame(at, s, n - 1);
        ChildlessStep(tables, at, kernel, s, n - 1);
      }
    }
  }

  lemma NoFrames(at: Places, s: Spot)
    ensures FramesTo(at, s, 0) == {}
  {
  }

  lemma FramesDisjoint(tables: Tables, at: Places, kernel: nat, s: Spot, i: nat)
    requires Forest(tables, at, kernel) && Child(s, i) in at
    ensures FramesTo(at, s, i) !! FramesTo(at, Child(s, i), ENTRIES)
    ensures at[Child(s, i)] !in FramesTo(at, s, i) && at[Child(s, i)] !in FramesTo(at, Child(s, i), ENTRIES)
  {
    hide Forest;
    var c := Child(s, i);
    UnderChild(s, i, c);
    forall u | u in at && Under(u, s) && u.path[|s.path|] < i
      ensures at[u] != at[c] && forall v | v in at && Under(v, c) :: at[v] != at[u]
    {
      if at[u] == at[c] { FrameOnce(tables, at, kernel, u, c); }
      forall v | v in at && Under(v, c) ensures at[v] != at[u] {
        UnderChild(s, i, v);
        if at[v] == at[u] { FrameOnce(tables, at, kernel, u, v); }
      }
    }
    forall v | v in at && Under(v, c) ensures at[v] != at[c] {
      if at[v] == at[c] { FrameOnce(tables, at, kernel, v, c); }
    }
  }

  /** Every table a space owns is handed back exactly once. */
  lemma SpaceTablesOnce(tables: Tables, at: Places, kernel: nat, root: nat)
    requires Forest(tables, at, kernel) && Spot(root, []) in at
    ensures |SpaceTables(at, root)| == |Owned(at, root)|
    ensures forall b :: b in SpaceTables(at, root) <==> b.pages == 1 && b.base in Owned(at, root)
    ensures |SpaceTables(at, root)| + |Others(at, root)| == |at|
  {
    var s := Spot(root, []);
    TablesOnce(tables, at, kernel, s, ENTRIES);
    WholeSpace(tables, at, kernel, root);
    SpotTable(tables, at, kernel, s);
    FramesApart(tables, at, kernel, s, ENTRIES, s);
    OwnedCount(tables, at, kernel, root);
    hide Forest, TablesBelow, FramesTo, Owned, Others;
    assert |FramesTo(at, s, ENTRIES) + {at[s]}| == |FramesTo(at, s, ENTRIES)| + 1;
  }

  ghost predicate Before(bs: seq<Range>, b: Range, c: Range) {
    exists i: nat, j: nat :: i < j < |bs| && bs[i] == b && bs[j] == c
  }

  lemma BeforeAmong(xs: seq<Range>, ys: seq<Range>, zs: seq<Range>, b: Range, c: Range)
    requires Before(ys, b, c)
    ensures Before(xs + ys + zs, b, c) && Before(xs + ys, b, c) && Before(ys + zs, b, c)
  {
    var i: nat, j: nat :| i < j < |ys| && ys[i] == b && ys[j] == c;
    assert (xs + ys + zs)[|xs| + i] == b && (xs + ys + zs)[|xs| + j] == c;
    assert (xs + ys)[|xs| + i] == b && (xs + ys)[|xs| + j] == c;
    assert (ys + zs)[i] == b && (ys + zs)[j] == c;
  }

  /** What is handed back below a table is handed back before it. */
  lemma BeforeLast(xs: seq<Range>, b: Range, c: Range)
    requires b in xs
    ensures Before(xs + [c], b, c)
  {
    var i :| 0 <= i < |xs| && xs[i] == b;
    assert (xs + [c])[i] == b && (xs + [c])[|xs|] == c;
  }

  lemma {:induction false} ChildListed(at: Places, s: Spot, n: nat, i: nat)
    requires i < n && Child(s, i) in at && |s.path| < 4
    ensures Range(at[Child(s, i)], 1) in TablesBelow(at, s, n)
    ensures forall b, c :: Before(TablesBelow(at, Child(s, i), ENTRIES), b, c) ==> Before(TablesBelow(at, s, n), b, c)
    ensures forall b :: b in TablesBelow(at, Child(s, i), ENTRIES) ==>
                        Before(TablesBelow(at, s, n), b, Range(at[Child(s, i)], 1))
    decreases n
  {
    var below := TablesBelow(at, Child(s, i), ENTRIES);
    hide *;
    if i < n - 1 {
      ChildListed(at, s, n - 1, i);
      if Child(s, n - 1) in at { TablesMore(at, s, n - 1); } else { TablesSame(at, s, n - 1); }
      var front := TablesBelow(at, s, n - 1);
      assert front <= TablesBelow(at, s, n);
      forall b, c | Before(front, b, c) ensures Before(TablesBelow(at, s, n), b, c) {
        BeforeAmong([], front, TablesBelow(at, s, n)[|front|..], b, c);
        assert front + TablesBelow(at, s, n)[|front|..] == TablesBelow(at, s, n);
      }
    } else {
      TablesMore(at, s, i);
      var c, front := Range(at[Child(s, i)], 1), TablesBelow(at, s, i);
      forall b | b in below ensures Before(front + (below + [c]), b, c) {
        BeforeLast(below, b, c);
        BeforeAmong(front, below + [c], [], b, c);
      }
      forall b, d | Before(below, b, d) ensures Before(front + (below + [c]), b, d) {
        BeforeAmong([], below, [c], b, d);
        BeforeAmong(front, below + [c], [], b, d);
      }
    }
  }

  /** A table is handed back after every table its entries lead to. */
  lemma ChildrenFirst(tables: Tables, at: Places, kernel: nat, root: nat, s: Spot, i: nat)
    requires Forest(tables, at, kernel) && Spot(root, []) in at
    requires s in at && s.root == root && Child(s, i) in at && i < ENTRIES
    ensures Before(SpaceTables(at, root), Range(at[Child(s, i)], 1), Range(at[s], 1))
  {
    hide *;
    SpaceTablesAre(at, root);
    var top := Spot(root, []);
    var all, b := TablesBelow(at, top, ENTRIES), Range(at[Child(s, i)], 1);
    SpotLevels(tables, at, kernel, s, i);
    ChildListed(at, s, ENTRIES, i);
    if s == top {
      BeforeLast(all, b, Range(root, 1));
      return;
    }
    var up, j := Up(s), LastIndex(s);
    ChildListed(at, up, ENTRIES, j);
    if up != top {
      SpotLevels(tables, at, kernel, up, j);
      ChildListed(at, Up(up), ENTRIES, LastIndex(up));
    }
    BeforeAmong([], all, [Range(root, 1)], b, Range(at[s], 1));
    assert [] + all == all;
  }

  lemma SpotLevels(tables: Tables, at: Places, kernel: nat, s: Spot, i: nat)
    requires Forest(tables, at, kernel) && s in at && Child(s, i) in at
    ensures |s.path| <= 2 && (s.path == [] ==> s == Spot(s.root, []) && at[s] == s.root)
    ensures s.path != [] ==> Up(s) in at && LastIndex(s) < ENTRIES && Child(Up(s), LastIndex(s)) == s
                             && Up(s).root == s.root && |Up(s).path| == |s.path| - 1
  {
    SpotTable(tables, at, kernel, s);
    assert SpotOk(tables, at, kernel, s) && SpotOk(tables, at, kernel, Child(s, i));
    if s.path != [] {
      assert s.path == s.path[..|s.path| - 1] + [s.path[|s.path| - 1]];
    }
  }

  lemma OwnedCount(tables: Tables, at: Places, kernel: nat, root: nat)
    requires Forest(tables, at, kernel)
    ensures |Owned(at, root)| + |Others(at, root)| == |at|
  {
    var mine := set s | s in at && s.root == root;
    forall u, v | u in mine && v in mine && at[u] == at[v] ensures u == v {
      FrameOnce(tables, at, kernel, u, v);
    }
    hide *;
    ImageCount(at, mine);
    OwnedImage(at, root);
  }

  lemma OwnedImage(at: Places, root: nat)
    ensures var mine := set s | s in at && s.root == root;
            Owned(at, root) == (set s | s in mine :: at[s]) && |mine| + |Others(at, root)| == |at|
  {
    var mine := set s | s in at && s.root == root;
    assert at.Keys == mine + Others(at, root).Keys && mine !! Others(at, root).Keys;
  }

  lemma {:induction false} ImageCount(at: Places, spots: set<Spot>)
    requires spots <= at.Keys && forall u, v | u in spots && v in spots && at[u] == at[v] :: u == v
    ensures |set s | s in spots :: at[s]| == |spots|
  {
    if spots != {} {
      var u :| u in spots;
      var rest := spots - {u};
      ImageCount(at, rest);
      assert (set s | s in spots :: at[s]) == (set s | s in rest :: at[s]) + {at[u]};
    }
  }
}
