/** Four-level page tables as values: what they translate, which tables belong to which address
    space, and what each kind of write does to both. */
module PageTables {
  import opened Bytes
  import opened PageRanges

  const ENTRIES := 512
  const SIZE_2M := 0x20_0000

  datatype Entry = Entry(addr: nat, present: bool, writable: bool, user: bool, large: bool, nx: bool)

  const Empty := Entry(0, false, false, false, false, false)

  type Table = t: seq<Entry> | |t| == ENTRIES witness Blank(ENTRIES)
  type Tables = map<nat, Table>

  function Blank(n: nat): (t: seq<Entry>)
    ensures |t| == n && forall i | 0 <= i < n :: t[i] == Empty
  {
    seq(n, _ => Empty)
  }

  const EmptyTable: Table := Blank(ENTRIES)

  // -------------------------------------------------------- virtual pages

  /** The four table indices of a virtual page. */
  datatype Key = Key(a: nat, b: nat, c: nat, d: nat)

  ghost predicate ValidKey(k: Key) {
    k.a < ENTRIES && k.b < ENTRIES && k.c < ENTRIES && k.d < ENTRIES
  }

  /** The indices of virtual page number `p`; only its low 36 bits matter. */
  function PageKey(p: nat): (k: Key)
    ensures k.a < ENTRIES && k.b < ENTRIES && k.c < ENTRIES && k.d < ENTRIES
  {
    Key(p / 512 / 512 / 512 % 512, p / 512 / 512 % 512, p / 512 % 512, p % 512)
  }

  function KeyOf(va: nat): Key {
    PageKey(va / PAGE_SIZE)
  }

  /** Below 2^36 the indices determine the page. */
  lemma KeyInjective(p: nat, q: nat)
    requires p < 0x10_0000_0000 && q < 0x10_0000_0000
    ensures PageKey(p) == PageKey(q) <==> p == q
  {
    KeyParts(p);
    KeyParts(q);
  }

  lemma KeyParts(p: nat)
    requires p < 0x10_0000_0000
    ensures var k := PageKey(p); p == ((k.a * 512 + k.b) * 512 + k.c) * 512 + k.d
  {
  }

  // ----------------------------------------------------------- translation

  /** Where a page lies and what may be done there. */
  datatype Leaf = Leaf(frame: nat, writable: bool, user: bool, executable: bool)

  const ADDRESS_LIMIT := 0x10_0000_0000_0000   // an entry holds bits 12 to 51 of an address

  /** What an address written into a last-level entry with its flags stands for: bits from 52 on are
      no part of the frame, and bit 63 falls on the flag against execution. */
  function LeafAt(pa: nat, writable: bool, user: bool, executable: bool): Leaf {
    Leaf(pa % ADDRESS_LIMIT, writable, user, executable && pa < WORD / 2)
  }

  function LeafEntry(pa: nat, writable: bool, user: bool, executable: bool): Entry {
    Entry(pa % ADDRESS_LIMIT, true, writable, user, false, !executable || pa >= WORD / 2)
  }

  /** Frame number `q`, counted in machine words. */
  function FrameLeaf(q: nat, writable: bool, user: bool, executable: bool): Leaf {
    LeafAt(q * PAGE_SIZE % WORD, writable, user, executable)
  }

  lemma FramePlain(q: nat, writable: bool, user: bool, executable: bool)
    requires q < 0x100_0000_0000
    ensures FrameLeaf(q, writable, user, executable) == Leaf(q * PAGE_SIZE, writable, user, executable)
  {
  }

  function EntryAt(tables: Tables, t: nat, i: nat): Entry {
    if t in tables && i < ENTRIES then tables[t][i] else Empty
  }

  /** The walk of section 4.5 of volume 3A of the Intel manual: rights are the conjunction of the
      rights of every level. */
  function Translate(tables: Tables, root: nat, k: Key): Option<Leaf> {
    var e4 := EntryAt(tables, root, k.a);
    if !e4.present then None
    else
      var e3 := EntryAt(tables, e4.addr, k.b);
      if !e3.present then None
      else if e3.large then
        Some(Leaf(e3.addr + k.c * SIZE_2M + k.d * PAGE_SIZE, e4.writable && e3.writable, e4.user && e3.user, !e4.nx
          && !e3.nx))
      else
        var e2 := EntryAt(tables, e3.addr, k.c);
        if !e2.present then None
        else if e2.large then
          Some(Leaf(e2.addr + k.d * PAGE_SIZE, e4.writable && e3.writable && e2.writable,
                    e4.user && e3.user && e2.user, !e4.nx && !e3.nx && !e2.nx))
        else
          var e1 := EntryAt(tables, e2.addr, k.d);
          if !e1.present then None
          else Some(Leaf(e1.addr, e4.writable && e3.writable && e2.writable && e1.writable,
                         e4.user && e3.user && e2.user && e1.user, !e4.nx && !e3.nx && !e2.nx && !e1.nx))
  }

  /** Two roots with the same top entry translate alike below it. */
  lemma SharedTranslate(tables: Tables, r: nat, s: nat, k: Key)
    requires EntryAt(tables, r, k.a) == EntryAt(tables, s, k.a)
    ensures Translate(tables, r, k) == Translate(tables, s, k)
  {
  }

  // -------------------------------------------------------------- ownership

  /** A table's place: the address space that owns it and the indices leading to it. */
  datatype Spot = Spot(root: nat, path: seq<nat>)

  type Places = map<Spot, nat>

  function Child(s: Spot, i: nat): Spot { Spot(s.root, s.path + [i]) }

  function Up(s: Spot): Spot
    requires s.path != []
  {
    Spot(s.root, s.path[..|s.path| - 1])
  }

  function LastIndex(s: Spot): nat
    requires s.path != []
  {
    s.path[|s.path| - 1]
  }

  /** The entry that leads from a table to one below it. */
  function Link(t: nat, user: bool): Entry {
    Entry(t, true, true, user, false, false)
  }

  ghost predicate SpotOk(tables: Tables, at: Places, kernel: nat, s: Spot)
    requires s in at
  {
    && at[s] in tables && |s.path| <= 3
    && (s.path == [] ==> at[s] == s.root)
    && (s.path != [] ==>
          && Up(s) in at && LastIndex(s) < ENTRIES
          && EntryAt(tables, at[Up(s)], LastIndex(s)) == Link(at[s], s.root != kernel))
  }

  /** A supervisor 2 MiB page. */
  predicate LargePage(e: Entry) {
    e.present && e.large && !e.user && e.addr % SIZE_2M == 0
  }

  /** Entries above the last level: nothing, a table of the same space, in the kernel's own space a
      2 MiB page, or in another space's root one of the kernel's links. */
  ghost predicate EntryOk(tables: Tables, at: Places, kernel: nat, s: Spot, i: nat)
    requires s in at
  {
    var e := EntryAt(tables, at[s], i);
    || e == Empty
    || (Child(s, i) in at && e == Link(at[Child(s, i)], s.root != kernel))
    || (|s.path| == 2 && s.root == kernel && LargePage(e) && Child(s, i) !in at)
    || (s.path == [] && s.root != kernel && Child(s, i) !in at && Spot(kernel, [i]) in at
      && e == Link(at[Spot(kernel, [i])], false))
  }

  ghost predicate AllSpots(tables: Tables, at: Places, kernel: nat) {
    forall s | s in at :: SpotOk(tables, at, kernel, s)
  }

  ghost predicate AllEntries(tables: Tables, at: Places, kernel: nat) {
    forall s, i: nat | s in at && |s.path| < 3 && i < ENTRIES :: EntryOk(tables, at, kernel, s, i)
  }

  /** No table in two places, and none outside them. */
  ghost predicate OnePlace(tables: Tables, at: Places) {
    && (forall s, t | s in at && t in at && at[s] == at[t] :: s == t)
    && forall f | f in tables :: exists s :: s in at && at[s] == f
  }

  /** A tree per address space, with nothing shared but the kernel's top entries. */
  ghost predicate Forest(tables: Tables, at: Places, kernel: nat) {
    && Spot(kernel, []) in at && AllSpots(tables, at, kernel) && AllEntries(tables, at, kernel) && OnePlace(tables, at)
  }

  // ------------------------------------------------- translation by ownership

  /** The directory and the last-level table that decide a page of a space. */
  function Pd(r: nat, k: Key): Spot { Spot(r, [k.a, k.b]) }

  function Pt(r: nat, k: Key): Spot { Spot(r, [k.a, k.b, k.c]) }

  /** What the two entries that decide a page say. */
  function Decided(hasPd: bool, e2: Entry, hasPt: bool, e1: Entry, d: nat, user: bool): Option<Leaf> {
    if !hasPd then None
    else if e2.large then Some(Leaf(e2.addr + d * PAGE_SIZE, e2.writable, e2.user && user, !e2.nx))
    else if !hasPt || !e1.present then None
    else Some(Leaf(e1.addr, e1.writable, e1.user && user, !e1.nx))
  }

  /** Translation told by the places: where page `k` of space `r` is as far as its own tables
      decide. */
  ghost function OwnTranslate(tables: Tables, at: Places, kernel: nat, r: nat, k: Key): Option<Leaf> {
    Decided(Pd(r, k) in at, if Pd(r, k) in at then EntryAt(tables, at[Pd(r, k)], k.c) else Empty,
            Pt(r, k) in at, if Pt(r, k) in at then EntryAt(tables, at[Pt(r, k)], k.d) else Empty,
            k.d, r != kernel)
  }

  lemma Levels(r: nat, k: Key)
    ensures |Pd(r, k).path| == 2 && |Pt(r, k).path| == 3 && Pd(r, k).root == r && Pt(r, k).root == r
    ensures Child(Pd(r, k), k.c) == Pt(r, k) && Up(Pt(r, k)) == Pd(r, k)
  {
  }

  lemma Paths(r: nat, a: nat, b: nat, c: nat)
    ensures Child(Spot(r, []), a) == Spot(r, [a]) && Up(Spot(r, [a])) == Spot(r, [])
    ensures Child(Spot(r, [a]), b) == Spot(r, [a, b]) && Up(Spot(r, [a, b])) == Spot(r, [a])
    ensures Child(Spot(r, [a, b]), c) == Spot(r, [a, b, c]) && Up(Spot(r, [a, b, c])) == Spot(r, [a, b])
  {
  }

  /** Where a space has its own top entry, or none, its tables alone decide; otherwise it sees what
      the kernel sees. */
  lemma TranslateOwned(tables: Tables, at: Places, kernel: nat, r: nat, k: Key)
    requires Forest(tables, at, kernel) && Spot(r, []) in at && ValidKey(k)
    ensures r == kernel || Spot(r, [k.a]) in at || EntryAt(tables, r, k.a) == Empty ==>
              Translate(tables, r, k) == OwnTranslate(tables, at, kernel, r, k)
    ensures !(r == kernel || Spot(r, [k.a]) in at || EntryAt(tables, r, k.a) == Empty) ==>
              Translate(tables, r, k) == OwnTranslate(tables, at, kernel, kernel, k)
  {
    OwnDecides(tables, at, kernel, r, k);
    OwnDecides(tables, at, kernel, kernel, k);
    TopEntry(tables, at, kernel, r, k.a);
    TopEntry(tables, at, kernel, kernel, k.a);
    hide OwnTranslate, Forest;
    if !(r == kernel || Spot(r, [k.a]) in at || EntryAt(tables, r, k.a) == Empty) {
      SharedTranslate(tables, r, kernel, k);
    }
    hide Translate;
  }

  lemma TopEntry(tables: Tables, at: Places, kernel: nat, r: nat, a: nat)
    requires Forest(tables, at, kernel) && Spot(r, []) in at && a < ENTRIES
    ensures var e := EntryAt(tables, r, a);
            || (e == Empty && Spot(r, [a]) !in at)
            || (Spot(r, [a]) in at && e == Link(at[Spot(r, [a])], r != kernel))
            || (r != kernel && Spot(r, [a]) !in at && Spot(kernel, [a]) in at && e == Link(at[Spot(kernel, [a])], false)
                && e == EntryAt(tables, kernel, a))
  {
    Paths(r, a, 0, 0);
    Paths(kernel, a, 0, 0);
    assert SpotOk(tables, at, kernel, Spot(r, []));
    assert SpotOk(tables, at, kernel, Spot(kernel, []));
    assert EntryOk(tables, at, kernel, Spot(r, []), a);
    if Spot(r, [a]) in at { assert SpotOk(tables, at, kernel, Spot(r, [a])); }
    if Spot(kernel, [a]) in at { assert SpotOk(tables, at, kernel, Spot(kernel, [a])); }
  }

  /** An entry below the top, read through the places. */
  lemma LowerEntry(tables: Tables, at: Places, kernel: nat, s: Spot, i: nat)
    requires Forest(tables, at, kernel) && s in at && 1 <= |s.path| <= 2 && i < ENTRIES
    ensures var e := EntryAt(tables, at[s], i);
            || (e == Empty && Child(s, i) !in at)
            || (Child(s, i) in at && e == Link(at[Child(s, i)], s.root != kernel))
            || (|s.path| == 2 && s.root == kernel && LargePage(e) && Child(s, i) !in at)
  {
    assert EntryOk(tables, at, kernel, s, i);
    if Child(s, i) in at {
      assert Up(Child(s, i)) == s;
      assert SpotOk(tables, at, kernel, Child(s, i));
    }
  }

  lemma OwnDecides(tables: Tables, at: Places, kernel: nat, r: nat, k: Key)
    requires Forest(tables, at, kernel) && Spot(r, []) in at && ValidKey(k)
    ensures Spot(r, [k.a]) in at || EntryAt(tables, r, k.a) == Empty ==>
              Translate(tables, r, k) == OwnTranslate(tables, at, kernel, r, k)
  {
    Paths(r, k.a, k.b, k.c);
    TopEntry(tables, at, kernel, r, k.a);
    UpIn(tables, at, kernel, Pd(r, k));
    if Spot(r, [k.a]) in at {
      LowerEntry(tables, at, kernel, Spot(r, [k.a]), k.b);
      if Pd(r, k) in at {
        LowerEntry(tables, at, kernel, Pd(r, k), k.c);
      }
    }
    hide Forest;
  }

  lemma UpIn(tables: Tables, at: Places, kernel: nat, s: Spot)
    requires Forest(tables, at, kernel) && s.path != []
    ensures s in at ==> Up(s) in at
  {
    if s in at { assert SpotOk(tables, at, kernel, s); }
  }

  // ------------------------------------------------------------- writes

  /** Entry `i` of the table at spot `s` replaced. */
  function Written(tables: Tables, t: nat, i: nat, e: Entry): Tables
    requires t in tables && i < ENTRIES
  {
    tables[t := tables[t][i := e]]
  }

  lemma WrittenReads(tables: Tables, t: nat, i: nat, e: Entry, u: nat, j: nat)
    requires t in tables && i < ENTRIES
    ensures EntryAt(Written(tables, t, i, e), u, j) == if u == t && j == i then e else EntryAt(tables, u, j)
    ensures Written(tables, t, i, e).Keys == tables.Keys
  {
  }

  // ---------------------------------------------------- a table joins

  ghost predicate CanJoin(tables: Tables, at: Places, kernel: nat, s: Spot, i: nat, f: nat, content: Table) {
    && Forest(tables, at, kernel) && s in at && |s.path| < 3 && i < ENTRIES && Child(s, i) !in at && f !in tables
    && (EntryAt(tables, at[s], i) == Empty || (|s.path| == 2 && EntryAt(tables, at[s], i).large))
    && (|s.path| < 2 ==> content == EmptyTable)
  }

  function Joined(tables: Tables, t: nat, i: nat, f: nat, content: Table, user: bool): Tables
    requires t in tables && i < ENTRIES
  {
    Written(tables[f := content], t, i, Link(f, user))
  }

  lemma JoinedReads(tables: Tables, t: nat, i: nat, f: nat, content: Table, user: bool, u: nat, j: nat)
    requires t in tables && i < ENTRIES && f !in tables
    ensures EntryAt(Joined(tables, t, i, f, content, user), u, j) ==
            if u == t && j == i then Link(f, user)
            else if u == f then (if j < ENTRIES then content[j] else Empty)
            else EntryAt(tables, u, j)
  {
  }

  lemma JoinFacts(tables: Tables, at: Places, kernel: nat, s: Spot, i: nat, f: nat, content: Table)
    requires CanJoin(tables, at, kernel, s, i, f, content)
    ensures at[s] in tables && forall t | t in at :: at[t] in tables && at[t] != f
    ensures forall t | t in at && t != s :: at[t] != at[s]
    ensures Spot(kernel, []) in at
  {
    hide AllEntries;
    forall t | t in at ensures at[t] in tables && at[t] != f && (t != s ==> at[t] != at[s]) {
      assert SpotOk(tables, at, kernel, t);
    }
    assert SpotOk(tables, at, kernel, s);
  }

  /** A new table under a spot keeps the forest. */
  lemma JoinForest(tables: Tables, at: Places, kernel: nat, s: Spot, i: nat, f: nat, content: Table)
    requires CanJoin(tables, at, kernel, s, i, f, content)
    ensures at[s] in tables
    ensures Forest(Joined(tables, at[s], i, f, content, s.root != kernel), at[Child(s, i) := f], kernel)
  {
    JoinFacts(tables, at, kernel, s, i, f, content);
    hide Forest, AllSpots, AllEntries, OnePlace, SpotOk, EntryOk, CanJoin, Joined;
    var tables', at' := Joined(tables, at[s], i, f, content, s.root != kernel), at[Child(s, i) := f];
    forall t | t in at' ensures SpotOk(tables', at', kernel, t) {
      JoinSpot(tables, at, kernel, s, i, f, content, t);
    }
    forall t, j: nat | t in at' && |t.path| < 3 && j < ENTRIES ensures EntryOk(tables', at', kernel, t, j) {
      JoinEntry(tables, at, kernel, s, i, f, content, t, j);
    }
    JoinPlaces(tables, at, kernel, s, i, f, content);
    ForestFrom(tables', at', kernel);
  }

  lemma ForestFrom(tables: Tables, at: Places, kernel: nat)
    requires Spot(kernel, []) in at && OnePlace(tables, at)
    requires forall s | s in at :: SpotOk(tables, at, kernel, s)
    requires forall s, i: nat | s in at && |s.path| < 3 && i < ENTRIES :: EntryOk(tables, at, kernel, s, i)
    ensures Forest(tables, at, kernel)
  {
    hide SpotOk, EntryOk, OnePlace;
  }

  lemma JoinSpot(tables: Tables, at: Places, kernel: nat, s: Spot, i: nat, f: nat, content: Table, t: Spot)
    requires CanJoin(tables, at, kernel, s, i, f, content) && at[s] in tables
    requires t in at[Child(s, i) := f]
    ensures SpotOk(Joined(tables, at[s], i, f, content, s.root != kernel), at[Child(s, i) := f], kernel, t)
  {
    JoinFacts(tables, at, kernel, s, i, f, content);
    ChildBack(s, i);
    var user := s.root != kernel;
    if t in at {
      assert SpotOk(tables, at, kernel, t);
      hide Forest, CanJoin, EntryAt, Joined, Child;
      JoinedKeys(tables, at[s], i, f, content, user);
      if t.path != [] {
        SpotAgain(t);
        JoinedReads(tables, at[s], i, f, content, user, at[Up(t)], LastIndex(t));
      }
    } else {
      hide Forest, EntryAt, Joined;
      JoinedKeys(tables, at[s], i, f, content, user);
      JoinedReads(tables, at[s], i, f, content, user, at[s], i);
    }
  }

  lemma JoinedKeys(tables: Tables, t: nat, i: nat, f: nat, content: Table, user: bool)
    requires t in tables && i < ENTRIES
    ensures Joined(tables, t, i, f, content, user).Keys == tables.Keys + {f}
  {
  }

  lemma ChildBack(s: Spot, i: nat)
    ensures Up(Child(s, i)) == s && LastIndex(Child(s, i)) == i
  {
  }

  /** A spot is the child of the one above it. */
  lemma SpotAgain(t: Spot)
    requires t.path != []
    ensures Child(Up(t), LastIndex(t)) == t
  {
  }

  lemma JoinEntry(tables: Tables, at: Places, kernel: nat, s: Spot, i: nat, f: nat, content: Table, t: Spot, j: nat)
    requires CanJoin(tables, at, kernel, s, i, f, content) && at[s] in tables
    requires t in at[Child(s, i) := f] && |t.path| < 3 && j < ENTRIES
    ensures EntryOk(Joined(tables, at[s], i, f, content, s.root != kernel), at[Child(s, i) := f], kernel, t, j)
  {
    JoinFacts(tables, at, kernel, s, i, f, content);
    SameChild(s, i, t, j);
    if t in at {
      assert EntryOk(tables, at, kernel, t, j);
      hide Forest;
      JoinedReads(tables, at[s], i, f, content, s.root != kernel, at[t], j);
      Paths(kernel, j, 0, 0);
    } else {
      JoinedReads(tables, at[s], i, f, content, s.root != kernel, f, j);
    }
  }

  lemma SameChild(s: Spot, i: nat, t: Spot, j: nat)
    ensures Child(s, i) == Child(t, j) <==> s == t && i == j
    ensures Child(s, i) != s
  {
    assert Child(s, i).path[..|s.path|] == s.path && Child(t, j).path[..|t.path|] == t.path;
    assert |Child(s, i).path| == |s.path| + 1 && Child(s, i).path[|s.path|] == i && Child(t, j).path[|t.path|] == j;
  }

  lemma JoinPlaces(tables: Tables, at: Places, kernel: nat, s: Spot, i: nat, f: nat, content: Table)
    requires CanJoin(tables, at, kernel, s, i, f, content) && at[s] in tables
    ensures OnePlace(Joined(tables, at[s], i, f, content, s.root != kernel), at[Child(s, i) := f])
  {
    JoinFacts(tables, at, kernel, s, i, f, content);
    hide AllSpots, AllEntries;
    var tables', at' := Joined(tables, at[s], i, f, content, s.root != kernel), at[Child(s, i) := f];
    forall g | g in tables' ensures exists t :: t in at' && at'[t] == g {
      if g == f {
        assert at'[Child(s, i)] == f;
      } else {
        var t :| t in at && at[t] == g;
        assert at'[t] == g;
      }
    }
  }

  /** The entry of table spot `u` that an index selects, once a table has joined. */
  function EntryJoined(tables: Tables, at: Places, s: Spot, i: nat, f: nat, content: Table, user: bool, u: Spot,
                       j: nat): Entry {
    if u == Child(s, i) then (if j < ENTRIES then content[j] else Empty)
    else if u == s && j == i then Link(f, user)
    else if u in at then EntryAt(tables, at[u], j)
    else Empty
  }

  lemma JoinedOwn(tables: Tables, at: Places, kernel: nat, s: Spot, i: nat, f: nat, content: Table, r: nat, k: Key)
    requires s in at && at[s] in tables && i < ENTRIES && f !in tables
    requires (forall t | t in at :: at[t] != f) && forall t | t in at && t != s :: at[t] != at[s]
    ensures var tables', at', user := Joined(tables, at[s], i, f, content, s.root != kernel), at[Child(s, i) := f],
            s.root != kernel;
            OwnTranslate(tables', at', kernel, r, k) ==
            Decided(Pd(r, k) in at
              || Pd(r, k) == Child(s, i), EntryJoined(tables, at, s, i, f, content, user, Pd(r, k), k.c),
                    Pt(r, k) in at || Pt(r, k) == Child(s, i), EntryJoined(tables, at, s, i, f, content, user, Pt(r, k),
                      k.d),
                    k.d, r != kernel)
  {
    hide Pd, Pt, EntryAt, Joined, Child, Decided;
    var user := s.root != kernel;
    ReadJoined(tables, at, s, i, f, content, user, Pd(r, k), k.c);
    ReadJoined(tables, at, s, i, f, content, user, Pt(r, k), k.d);
  }

  lemma ReadJoined(tables: Tables, at: Places, s: Spot, i: nat, f: nat, content: Table, user: bool, u: Spot, j: nat)
    requires s in at && at[s] in tables && i < ENTRIES && f !in tables
    requires (forall t | t in at :: at[t] != f) && forall t | t in at && t != s :: at[t] != at[s]
    ensures var tables', at' := Joined(tables, at[s], i, f, content, user), at[Child(s, i) := f];
            (if u in at' then EntryAt(tables', at'[u], j) else Empty) == EntryJoined(tables, at, s, i, f, content, user,
              u, j)
  {
    hide EntryAt, Joined, Child;
    if u == Child(s, i) {
      JoinedReads(tables, at[s], i, f, content, user, f, j);
    } else if u in at {
      JoinedReads(tables, at[s], i, f, content, user, at[u], j);
    }
  }

  /** A new table replaces nothing, or a 2 MiB page. */
  lemma JoinOver(tables: Tables, at: Places, kernel: nat, s: Spot, i: nat, f: nat, content: Table)
    requires CanJoin(tables, at, kernel, s, i, f, content)
    ensures s in at && i < ENTRIES && f !in tables && Child(s, i) !in at && (|s.path| < 2 ==> content == EmptyTable)
  {
    hide Forest;
  }

  /** Above the last level a new table is empty and translates nothing. */
  lemma JoinTranslateUpper(tables: Tables, at: Places, kernel: nat, s: Spot, i: nat, f: nat, r: nat, k: Key)
    requires CanJoin(tables, at, kernel, s, i, f, EmptyTable) && s in at && at[s] in tables && i < ENTRIES
             && ValidKey(k) && |s.path| < 2
    ensures OwnTranslate(Joined(tables, at[s], i, f, EmptyTable, s.root != kernel), at[Child(s, i) := f], kernel, r, k)
         == OwnTranslate(tables, at, kernel, r, k)
  {
    JoinFacts(tables, at, kernel, s, i, f, EmptyTable);
    JoinOver(tables, at, kernel, s, i, f, EmptyTable);
    JoinedOwn(tables, at, kernel, s, i, f, EmptyTable, r, k);
    Levels(r, k);
    ChildLevel(s, i);
    PtHasPd(tables, at, kernel, r, k);
    hide Forest, CanJoin, Joined, Child, Up, Pd, Pt, EntryAt;
  }

  lemma ChildLevel(s: Spot, i: nat)
    ensures |Child(s, i).path| == |s.path| + 1 && Child(s, i) != s
  {
  }

  lemma PtHasPd(tables: Tables, at: Places, kernel: nat, r: nat, k: Key)
    requires Forest(tables, at, kernel)
    ensures Pt(r, k) in at ==> Pd(r, k) in at
  {
    Levels(r, k);
    UpIn(tables, at, kernel, Pt(r, k));
  }

  /** A new last-level table decides the pages below its entry and no others. */
  lemma JoinTranslate(tables: Tables, at: Places, kernel: nat, s: Spot, i: nat, f: nat, content: Table, r: nat, k: Key)
    requires CanJoin(tables, at, kernel, s, i, f, content) && s in at && at[s] in tables && i < ENTRIES && ValidKey(k)
             && |s.path| == 2
    ensures OwnTranslate(Joined(tables, at[s], i, f, content, s.root != kernel), at[Child(s, i) := f], kernel, r, k) ==
            if s == Pd(r, k) && i == k.c then
              var e1 := content[k.d];
              if !e1.present then None else Some(Leaf(e1.addr, e1.writable, e1.user && r != kernel, !e1.nx))
            else OwnTranslate(tables, at, kernel, r, k)
  {
    JoinFacts(tables, at, kernel, s, i, f, content);
    JoinOver(tables, at, kernel, s, i, f, content);
    JoinedOwn(tables, at, kernel, s, i, f, content, r, k);
    Levels(r, k);
    ChildLevel(s, i);
    SameChild(s, i, Pd(r, k), k.c);
    hide Forest, CanJoin, Joined, Child, Up, Pd, Pt, EntryAt;
  }

  // ------------------------------------------------------- leaf writes

  /** Writing a last-level entry, or a 2 MiB entry of the kernel's that leads to no table, keeps
      the forest. */
  ghost predicate CanSet(tables: Tables, at: Places, kernel: nat, s: Spot, i: nat, e: Entry) {
    && Forest(tables, at, kernel) && s in at && i < ENTRIES && e.present
    && (|s.path| == 3 || (|s.path| == 2 && s.root == kernel && LargePage(e) && Child(s, i) !in at))
  }

  lemma SetFacts(tables: Tables, at: Places, kernel: nat, s: Spot, i: nat, e: Entry)
    requires CanSet(tables, at, kernel, s, i, e)
    ensures at[s] in tables && forall t | t in at && t != s :: at[t] != at[s]
    ensures Spot(kernel, []) in at
  {
    hide AllEntries;
    assert SpotOk(tables, at, kernel, s);
  }

  lemma SetForest(tables: Tables, at: Places, kernel: nat, s: Spot, i: nat, e: Entry)
    requires CanSet(tables, at, kernel, s, i, e)
    ensures at[s] in tables && Forest(Written(tables, at[s], i, e), at, kernel)
  {
    SetFacts(tables, at, kernel, s, i, e);
    hide Forest, AllSpots, AllEntries, OnePlace, SpotOk, EntryOk, CanSet, Written;
    var tables' := Written(tables, at[s], i, e);
    forall t | t in at ensures SpotOk(tables', at, kernel, t) {
      SetSpot(tables, at, kernel, s, i, e, t);
    }
    forall t, j: nat | t in at && |t.path| < 3 && j < ENTRIES ensures EntryOk(tables', at, kernel, t, j) {
      SetEntry(tables, at, kernel, s, i, e, t, j);
    }
    SetPlaces(tables, at, kernel, s, i, e);
    ForestFrom(tables', at, kernel);
  }

  lemma SetPlaces(tables: Tables, at: Places, kernel: nat, s: Spot, i: nat, e: Entry)
    requires CanSet(tables, at, kernel, s, i, e) && at[s] in tables
    ensures OnePlace(Written(tables, at[s], i, e), at)
  {
    hide AllSpots, AllEntries;
  }

  lemma SetSpot(tables: Tables, at: Places, kernel: nat, s: Spot, i: nat, e: Entry, t: Spot)
    requires CanSet(tables, at, kernel, s, i, e) && at[s] in tables && t in at
    ensures SpotOk(Written(tables, at[s], i, e), at, kernel, t)
  {
    SetFacts(tables, at, kernel, s, i, e);
    assert SpotOk(tables, at, kernel, t);
    hide Forest;
    if t.path != [] {
      SpotAgain(t);
      WrittenReads(tables, at[s], i, e, at[Up(t)], LastIndex(t));
    }
    WrittenReads(tables, at[s], i, e, 0, 0);
  }

  lemma SetEntry(tables: Tables, at: Places, kernel: nat, s: Spot, i: nat, e: Entry, t: Spot, j: nat)
    requires CanSet(tables, at, kernel, s, i, e) && at[s] in tables && t in at && |t.path| < 3 && j < ENTRIES
    ensures EntryOk(Written(tables, at[s], i, e), at, kernel, t, j)
  {
    SetFacts(tables, at, kernel, s, i, e);
    assert EntryOk(tables, at, kernel, t, j);
    hide Forest;
    WrittenReads(tables, at[s], i, e, at[t], j);
  }

  /** A last-level write decides exactly one page of one space. */
  lemma LeafTranslate(tables: Tables, at: Places, kernel: nat, s: Spot, i: nat, e: Entry, r: nat, k: Key)
    requires CanSet(tables, at, kernel, s, i, e) && s in at && at[s] in tables && i < ENTRIES && |s.path| == 3
             && ValidKey(k)
    ensures OwnTranslate(Written(tables, at[s], i, e), at, kernel, r, k) ==
            if s == Pt(r, k) && i == k.d then Some(Leaf(e.addr, e.writable, e.user && r != kernel, !e.nx))
            else OwnTranslate(tables, at, kernel, r, k)
  {
    SetFacts(tables, at, kernel, s, i, e);
    SetPresent(tables, at, kernel, s, i, e);
    Levels(r, k);
    if s == Pt(r, k) { BelowPd(tables, at, kernel, r, k); }
    WrittenTwice(tables, at, kernel, s, i, e, r, k);
    hide Forest, CanSet, Written, Child, Up, Pd, Pt, EntryAt, OwnTranslate;
  }

  /** The two entries that decide a page, after a write. */
  lemma WrittenTwice(tables: Tables, at: Places, kernel: nat, s: Spot, i: nat, e: Entry, r: nat, k: Key)
    requires s in at && at[s] in tables && i < ENTRIES && forall t | t in at && t != s :: at[t] != at[s]
    ensures OwnTranslate(Written(tables, at[s], i, e), at, kernel, r, k) ==
            Decided(Pd(r, k) in at, if s == Pd(r, k) && k.c == i then e
              else if Pd(r, k) in at then EntryAt(tables, at[Pd(r, k)], k.c) else Empty,
                    Pt(r, k) in at, if s == Pt(r, k) && k.d == i then e
                      else if Pt(r, k) in at then EntryAt(tables, at[Pt(r, k)], k.d) else Empty,
                    k.d, r != kernel)
    ensures OwnTranslate(tables, at, kernel, r, k) ==
            Decided(Pd(r, k) in at, if Pd(r, k) in at then EntryAt(tables, at[Pd(r, k)], k.c) else Empty,
                    Pt(r, k) in at, if Pt(r, k) in at then EntryAt(tables, at[Pt(r, k)], k.d) else Empty,
                    k.d, r != kernel)
  {
    hide Pd, Pt, EntryAt, Written, Decided;
    if Pd(r, k) in at { WrittenReads(tables, at[s], i, e, at[Pd(r, k)], k.c); }
    if Pt(r, k) in at { WrittenReads(tables, at[s], i, e, at[Pt(r, k)], k.d); }
  }

  lemma SetPresent(tables: Tables, at: Places, kernel: nat, s: Spot, i: nat, e: Entry)
    requires CanSet(tables, at, kernel, s, i, e)
    ensures e.present && i < ENTRIES && (|s.path| == 2 ==> e.large)
  {
    hide Forest;
  }

  lemma BelowPd(tables: Tables, at: Places, kernel: nat, r: nat, k: Key)
    requires Forest(tables, at, kernel) && Pt(r, k) in at && ValidKey(k)
    ensures Pd(r, k) in at && !EntryAt(tables, at[Pd(r, k)], k.c).large
  {
    Paths(r, k.a, k.b, k.c);
    UpIn(tables, at, kernel, Pt(r, k));
    LowerEntry(tables, at, kernel, Pd(r, k), k.c);
    hide Forest;
  }

  /** A 2 MiB write decides the 512 pages below its entry. */
  lemma LargeTranslate(tables: Tables, at: Places, kernel: nat, s: Spot, i: nat, e: Entry, r: nat, k: Key)
    requires CanSet(tables, at, kernel, s, i, e) && s in at && at[s] in tables && i < ENTRIES && |s.path| == 2
             && ValidKey(k)
    ensures OwnTranslate(Written(tables, at[s], i, e), at, kernel, r, k) ==
            if s == Pd(r, k) && i == k.c
            then Some(Leaf(e.addr + k.d * PAGE_SIZE, e.writable, e.user && r != kernel, !e.nx))
            else OwnTranslate(tables, at, kernel, r, k)
  {
    SetFacts(tables, at, kernel, s, i, e);
    SetPresent(tables, at, kernel, s, i, e);
    Levels(r, k);
    WrittenTwice(tables, at, kernel, s, i, e, r, k);
    hide Forest, CanSet, Written, Child, Up, Pd, Pt, EntryAt, OwnTranslate;
  }

  // ------------------------------------------------------------ spaces

  ghost predicate CanOpen(tables: Tables, at: Places, kernel: nat, r: nat) {
    Forest(tables, at, kernel) && r !in tables && r != kernel && forall s | s in at :: s.root != r
  }

  /** A new space starts as a copy of the kernel's root. */
  lemma OpenForest(tables: Tables, at: Places, kernel: nat, r: nat)
    requires CanOpen(tables, at, kernel, r)
    ensures kernel in tables && Forest(tables[r := tables[kernel]], at[Spot(r, []) := r], kernel)
  {
    assert SpotOk(tables, at, kernel, Spot(kernel, []));
    var tables', at' := tables[r := tables[kernel]], at[Spot(r, []) := r];
    forall t | t in at' ensures SpotOk(tables', at', kernel, t) {
      if t in at { OpenSpot(tables, at, kernel, r, t); }
    }
    forall t, j: nat | t in at' && |t.path| < 3 && j < ENTRIES ensures EntryOk(tables', at', kernel, t, j) {
      OpenEntry(tables, at, kernel, r, t, j);
    }
    OpenPlaces(tables, at, kernel, r);
    hide Forest, AllSpots, AllEntries, OnePlace, SpotOk, EntryOk, CanOpen;
    ForestFrom(tables', at', kernel);
  }

  lemma OpenPlaces(tables: Tables, at: Places, kernel: nat, r: nat)
    requires CanOpen(tables, at, kernel, r) && kernel in tables
    ensures OnePlace(tables[r := tables[kernel]], at[Spot(r, []) := r])
    ensures Spot(kernel, []) in at[Spot(r, []) := r]
  {
    hide AllEntries;
    var tables', at' := tables[r := tables[kernel]], at[Spot(r, []) := r];
    forall t | t in at ensures at[t] != r {
      assert SpotOk(tables, at, kernel, t);
    }
    forall f | f in tables' ensures exists s :: s in at' && at'[s] == f {
      if f == r {
        assert at'[Spot(r, [])] == r;
      } else {
        var s :| s in at && at[s] == f;
        assert s in at' && at'[s] == f;
      }
    }
  }

  lemma OpenSpot(tables: Tables, at: Places, kernel: nat, r: nat, t: Spot)
    requires CanOpen(tables, at, kernel, r) && t in at && kernel in tables
    ensures SpotOk(tables[r := tables[kernel]], at[Spot(r, []) := r], kernel, t)
  {
    assert SpotOk(tables, at, kernel, t);
    if t.path != [] {
      assert SpotOk(tables, at, kernel, Up(t));
    }
    hide Forest;
  }

  lemma OpenEntry(tables: Tables, at: Places, kernel: nat, r: nat, t: Spot, j: nat)
    requires CanOpen(tables, at, kernel, r) && kernel in tables && t in at[Spot(r, []) := r] && |t.path| < 3
             && j < ENTRIES
    ensures EntryOk(tables[r := tables[kernel]], at[Spot(r, []) := r], kernel, t, j)
  {
    Paths(kernel, j, 0, 0);
    Paths(r, j, 0, 0);
    assert SpotOk(tables, at, kernel, Spot(kernel, []));
    if t in at {
      assert SpotOk(tables, at, kernel, t);
      assert EntryOk(tables, at, kernel, t, j);
    } else {
      assert EntryOk(tables, at, kernel, Spot(kernel, []), j);
    }
    hide Forest;
  }

  /** The tables a space owns, its root among them. */
  ghost function Owned(at: Places, r: nat): set<nat> {
    set s | s in at && s.root == r :: at[s]
  }

  ghost function Others(at: Places, r: nat): Places {
    map s | s in at && s.root != r :: at[s]
  }

  /** Taking away everything a space owns leaves the other spaces' trees whole. */
  lemma CloseForest(tables: Tables, at: Places, kernel: nat, r: nat)
    requires Forest(tables, at, kernel) && r != kernel
    ensures Forest(tables - Owned(at, r), Others(at, r), kernel)
  {
    var tables', at' := tables - Owned(at, r), Others(at, r);
    forall t | t in at' ensures SpotOk(tables', at', kernel, t) {
      CloseSpot(tables, at, kernel, r, t);
    }
    forall t, j: nat | t in at' && |t.path| < 3 && j < ENTRIES ensures EntryOk(tables', at', kernel, t, j) {
      CloseEntry(tables, at, kernel, r, t, j);
    }
    ClosePlaces(tables, at, kernel, r);
    hide Forest, AllSpots, AllEntries, OnePlace, SpotOk, EntryOk;
    ForestFrom(tables', at', kernel);
  }

  lemma CloseReads(tables: Tables, at: Places, kernel: nat, r: nat, t: Spot, j: nat)
    requires Forest(tables, at, kernel) && t in at && t.root != r
    ensures at[t] in tables - Owned(at, r) && EntryAt(tables - Owned(at, r), at[t], j) == EntryAt(tables, at[t], j)
  {
    hide AllEntries;
    assert SpotOk(tables, at, kernel, t);
  }

  lemma CloseSpot(tables: Tables, at: Places, kernel: nat, r: nat, t: Spot)
    requires Forest(tables, at, kernel) && r != kernel && t in Others(at, r)
    ensures SpotOk(tables - Owned(at, r), Others(at, r), kernel, t)
  {
    assert SpotOk(tables, at, kernel, t);
    CloseReads(tables, at, kernel, r, t, 0);
    if t.path != [] {
      CloseReads(tables, at, kernel, r, Up(t), LastIndex(t));
    }
    hide Forest, EntryAt;
  }

  lemma CloseEntry(tables: Tables, at: Places, kernel: nat, r: nat, t: Spot, j: nat)
    requires Forest(tables, at, kernel) && r != kernel && t in Others(at, r) && |t.path| < 3 && j < ENTRIES
    ensures EntryOk(tables - Owned(at, r), Others(at, r), kernel, t, j)
  {
    assert EntryOk(tables, at, kernel, t, j);
    CloseReads(tables, at, kernel, r, t, j);
    hide Forest, EntryAt;
  }

  lemma ClosePlaces(tables: Tables, at: Places, kernel: nat, r: nat)
    requires Forest(tables, at, kernel) && r != kernel
    ensures OnePlace(tables - Owned(at, r), Others(at, r)) && Spot(kernel, []) in Others(at, r)
  {
    hide AllSpots, AllEntries;
    forall f | f in tables - Owned(at, r) ensures exists s :: s in Others(at, r) && Others(at, r)[s] == f {
      var s :| s in at && at[s] == f;
      assert s in Others(at, r);
    }
  }
}
