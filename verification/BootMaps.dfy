/** Where new tables appear, and the map the kernel starts with. */
module BootMaps {
  import opened Bytes
  import opened PageRanges
  import opened PageFrames
  import opened PageTables
  import opened PagingFacts

  // ------------------------------------------------------ where tables appear

  ghost predicate NewAt(at: Places, at': Places, c: Spot) {
    forall t | t in at' && t !in at :: t == c
  }

  ghost predicate NoNewLast(at: Places, at': Places) {
    forall t | t in at' && t !in at :: |t.path| < 3
  }

  /** The tables a walk to the page of `k` passes below the root. */
  ghost predicate OnWay(t: Spot, root: nat, k: Key) {
    t == Spot(root, [k.a]) || t == Pd(root, k) || t == Pt(root, k)
  }

  ghost predicate NewUpper(at: Places, at': Places, root: nat, a: nat, b: nat) {
    forall t | t in at' && t !in at :: t == Spot(root, [a]) || t == Spot(root, [a, b])
  }

  /** New tables are tables of `root`, on the way to pages `p` to `p + n`. */
  ghost predicate NewFor(at: Places, at': Places, root: nat, p: nat, n: nat) {
    forall t | t in at' && t !in at :: exists v: nat :: p <= v < p + n && OnWay(t, root, PageKey(v))
  }

  lemma OneNew(at: Places, at': Places, c: Spot, f: nat)
    requires at' == at || at' == at[c := f]
    ensures NewAt(at, at', c)
  {
  }

  lemma UpperFirst(at: Places, at': Places, root: nat, a: nat, b: nat)
    requires NewAt(at, at', Child(Spot(root, []), a))
    ensures NewUpper(at, at', root, a, b)
  {
    Paths(root, a, b, 0);
  }

  lemma UpperThen(at0: Places, at1: Places, at2: Places, root: nat, a: nat, b: nat)
    requires NewUpper(at0, at1, root, a, b) && NewAt(at1, at2, Child(Spot(root, [a]), b))
    ensures NewUpper(at0, at2, root, a, b)
  {
    Paths(root, a, b, 0);
  }

  lemma UpperNotLast(at: Places, at': Places, root: nat, a: nat, b: nat)
    requires NewUpper(at, at', root, a, b)
    ensures NoNewLast(at, at')
  {
    assert |[a]| < 3 && |[a, b]| < 3;
  }

  lemma UpperFor(at: Places, at': Places, root: nat, va: nat)
    requires var k := KeyOf(va); NewUpper(at, at', root, k.a, k.b)
    ensures NewFor(at, at', root, va / PAGE_SIZE, 1)
  {
    var v := va / PAGE_SIZE;
    assert forall t | t in at' && t !in at :: OnWay(t, root, PageKey(v));
  }

  lemma NewNone(at: Places, root: nat, p: nat, n: nat)
    ensures NewFor(at, at, root, p, n)
  {
  }

  lemma NewOne(at0: Places, at1: Places, at2: Places, root: nat, va: nat)
    requires var k := KeyOf(va);
             NewUpper(at0, at1, root, k.a, k.b)
             && NewAt(at1, at2, Child(Spot(root, [k.a, k.b]), k.c))
    ensures NewFor(at0, at2, root, va / PAGE_SIZE, 1)
  {
    var v := va / PAGE_SIZE;
    var k := PageKey(v);
    assert Child(Spot(root, [k.a, k.b]), k.c) == Pt(root, k);
    assert forall t | t in at2 && t !in at0 :: OnWay(t, root, k);
  }

  lemma NewTwice(at0: Places, at1: Places, at2: Places, root: nat, p: nat, n: nat, v: nat)
    requires NewFor(at0, at1, root, p, n) && NewFor(at1, at2, root, v, 1) && p <= v < p + n
    ensures NewFor(at0, at2, root, p, n)
  {
    hide PageKey, OnWay;
  }

  // --------------------------------------------------------- what tables cost

  function Ones(n: nat): (ns: seq<nat>)
    ensures |ns| == n && forall i | 0 <= i < n :: ns[i] == 1
  {
    seq(n, _ => 1)
  }

  /** Every new table took the first free page there was, and nothing else was taken. */
  ghost predicate Paid(at: Places, free: seq<Range>, at': Places, free': seq<Range>) {
    |at| <= |at'| && Served(free, Ones(|at'| - |at|)) == Some(free')
  }

  lemma PaidSame(at: Places, free: seq<Range>)
    ensures Paid(at, free, at, free)
  {
  }

  lemma PaidNothing(at: Places, free: seq<Range>, at': Places, free': seq<Range>)
    requires Paid(at, free, at', free') && |at'| == |at|
    ensures free' == free
  {
    assert Ones(0) == [];
  }

  lemma PaidTwice(at0: Places, free0: seq<Range>, at1: Places, free1: seq<Range>, at2: Places, free2: seq<Range>)
    requires Paid(at0, free0, at1, free1) && Paid(at1, free1, at2, free2)
    ensures Paid(at0, free0, at2, free2)
  {
    hide Served, Ones, Total;
    ServedConcat(free0, Ones(|at1| - |at0|), Ones(|at2| - |at1|));
    OnesJoin(|at1| - |at0|, |at2| - |at1|);
  }

  lemma OnesJoin(n: nat, m: nat)
    ensures Ones(n) + Ones(m) == Ones(n + m)
  {
    hide *;
  }

  lemma PaidOne(at: Places, free: seq<Range>, free': seq<Range>, s: Spot, f: nat)
    requires s !in at && FirstFit(free, 1) < |free| && free' == Taken(free, 1)
    ensures Paid(at, free, at[s := f], free')
  {
    ServedOne(free, 1);
    hide Served, FirstFit, Taken;
    assert Ones(1) == [1];
    assert |at[s := f]| == |at| + 1;
  }

  lemma OnesCount(n: nat)
    ensures |Ones(n)| == n && Ones(3) == [1, 1, 1]
  {
  }

  /** So pages and tables together stay as many, and the free ranges become no more. */
  lemma PaidCounts(at: Places, free: seq<Range>, at': Places, free': seq<Range>)
    requires Paid(at, free, at', free')
    ensures Total(free') + |at'| == Total(free) + |at| && |free'| <= |free|
  {
    PaidMeans(at, free, at', free');
    hide *;
    var n := |at'| - |at|;
    OnesPlain(n);
    ServedTotal(free, Ones(n));
    ServedShrinks(free, Ones(n));
    SumOnes(n);
  }

  lemma PaidMeans(at: Places, free: seq<Range>, at': Places, free': seq<Range>)
    requires Paid(at, free, at', free')
    ensures |at| <= |at'| && Served(free, Ones(|at'| - |at|)) == Some(free')
  {
    hide Served, Ones;
  }

  lemma OnesPlain(n: nat)
    ensures forall k | k in Ones(n) :: k > 0
  {
  }

  lemma {:induction false} SumOnes(n: nat)
    ensures Sum(Ones(n)) == n
  {
    if n > 0 {
      assert Ones(n)[1..] == Ones(n - 1);
      SumOnes(n - 1);
    }
  }

  /** All new tables are on the way to pages `p` to `p + n`, and each took the first free page. */
  ghost predicate Branched(at: Places, free: seq<Range>, at': Places, free': seq<Range>, root: nat, p: nat, n: nat) {
    NewFor(at, at', root, p, n) && Paid(at, free, at', free')
  }

  lemma IsBranched(at: Places, free: seq<Range>, at': Places, free': seq<Range>, root: nat, p: nat, n: nat)
    ensures NewFor(at, at', root, p, n) && Paid(at, free, at', free') ==> Branched(at, free, at', free', root, p, n)
  {
    hide NewFor, Paid;
  }

  lemma BranchedNone(at: Places, free: seq<Range>, root: nat, p: nat, n: nat)
    ensures Branched(at, free, at, free, root, p, n)
  {
    NewNone(at, root, p, n);
    PaidSame(at, free);
    hide NewFor, Paid;
  }

  lemma BranchedTwice(at0: Places, free0: seq<Range>, at1: Places, free1: seq<Range>, at2: Places, free2: seq<Range>,
                   root: nat, p1: nat, n1: nat, p: nat, n: nat)
    requires Branched(at0, free0, at1, free1, root, p, n) && Branched(at1, free1, at2, free2, root, p1, n1)
    requires p <= p1 && p1 + n1 <= p + n
    ensures Branched(at0, free0, at2, free2, root, p, n)
  {
    PaidTwice(at0, free0, at1, free1, at2, free2);
    hide OnWay, PageKey, Paid;
  }

  lemma NoPageTotal(free: seq<Range>)
    requires Canonical(free) && NoPage(free)
    ensures Total(free) == 0
  {
    FirstRun(free);
    hide FreeRun;
  }

  lemma FirstRun(free: seq<Range>)
    requires Canonical(free)
    ensures free != [] ==> FreeRun(free, free[0].base, 1)
  {
    if free != [] {
      assert Proper(free[0]);
      assert forall x: nat | InRange(free[0], x) :: Holds(free, x);
    }
  }

  /** Why page `k` cannot be mapped in a space: its top entry is the kernel's, or a table on its way
      is missing and there is no page for one. */
  ghost predicate Stopped(tables: Tables, at: Places, free: seq<Range>, kernel: nat, root: nat, k: Key) {
    KernelEntry(tables, at, kernel, Spot(root, []), k.a) || (NoPage(free) && Pt(root, k) !in at)
  }

  lemma StoppedAbove(tables: Tables, at: Places, free: seq<Range>, kernel: nat, root: nat, k: Key)
    requires Forest(tables, at, kernel)
    requires KernelEntry(tables, at, kernel, Spot(root, []), k.a) || (NoPage(free) && Pd(root, k) !in at)
    ensures Stopped(tables, at, free, kernel, root, k)
  {
    hide Forest, KernelEntry, NoPage;
    Levels(root, k);
    UpIn(tables, at, kernel, Pt(root, k));
  }

  lemma StoppedLast(tables: Tables, at: Places, free: seq<Range>, kernel: nat, root: nat, k: Key)
    requires NoPage(free) && Child(Spot(root, [k.a, k.b]), k.c) !in at
    ensures Stopped(tables, at, free, kernel, root, k)
  {
    Paths(root, k.a, k.b, k.c);
  }

  lemma UpperMissing(tables: Tables, at: Places, kernel: nat, root: nat, a: nat, b: nat)
    requires Forest(tables, at, kernel)
    ensures Spot(root, [a]) !in at ==> Spot(root, [a, b]) !in at
  {
    Paths(root, a, b, 0);
    UpIn(tables, at, kernel, Spot(root, [a, b]));
  }

  /** The last-level tables of pages `p` to `p + n` are there. */
  ghost predicate HasTables(at: Places, root: nat, p: nat, n: nat) {
    forall v: nat | p <= v < p + n :: Pt(root, PageKey(v)) in at
  }

  lemma HasNone(at: Places, root: nat, p: nat)
    ensures HasTables(at, root, p, 0)
  {
  }

  lemma HasMore(at: Places, at': Places, root: nat, p: nat, n: nat)
    requires HasTables(at, root, p, n) && (forall s | s in at :: s in at') && Pt(root, PageKey(p + n)) in at'
    ensures HasTables(at', root, p, n + 1)
  {
    hide Pt, PageKey;
  }

  lemma HasSame(at: Places, at': Places, root: nat, p: nat, n: nat)
    requires HasTables(at, root, p, n) && forall s | s in at :: s in at'
    ensures HasTables(at', root, p, n)
  {
    hide Pt, PageKey;
  }

  /** Without a run of `n` pages the first-fit search finds nothing. */
  lemma NoFit(rs: seq<Range>, n: nat)
    requires Canonical(rs) && n > 0 && forall a: nat :: !FreeRun(rs, a, n)
    ensures FirstFit(rs, n) == |rs|
  {
    FitIsLowest(rs, n);
    hide FreeRun;
  }

  lemma CursorPage(p: nat)
    ensures p * PAGE_SIZE / PAGE_SIZE == p
  {
  }

  // ------------------------------------------------------------ 2 MiB pages

  /** The pages of one 2 MiB page of the kernel's go to consecutive frames from `pa`. */
  ghost predicate MapsLarge(tables: Tables, at: Places, tables': Tables, at': Places, kernel: nat, key: Key, pa: nat,
                            writable: bool, executable: bool) {
    forall r: nat, k | ValidKey(k) ::
      OwnTranslate(tables', at', kernel, r, k) ==
      if r == kernel && k == key.(d := k.d) then Some(Leaf(pa + k.d * PAGE_SIZE, writable, false, executable))
      else OwnTranslate(tables, at, kernel, r, k)
  }

  function LargeEntry(pa: nat, writable: bool, executable: bool): Entry {
    Entry(pa, true, writable, false, true, !executable)
  }

  lemma LargeKeeps(tables: Tables, at: Places, kernel: nat, key: Key, pa: nat, writable: bool, executable: bool,
                   free: seq<Range>, lost: seq<Range>)
    requires Forest(tables, at, kernel) && Clean(tables, free, lost) && ValidKey(key) && pa % SIZE_2M == 0
    requires Pd(kernel, key) in at && at[Pd(kernel, key)] in tables && Pt(kernel, key) !in at
    ensures key.c < ENTRIES
    ensures var tables' := Written(tables, at[Pd(kernel, key)], key.c, LargeEntry(pa, writable, executable));
            && Forest(tables', at, kernel) && Clean(tables', free, lost)
            && Extends(tables, at, free, lost, tables', at, free, lost, kernel)
            && MapsLarge(tables, at, tables', at, kernel, key, pa, writable, executable)
  {
    var s, e := Pd(kernel, key), LargeEntry(pa, writable, executable);
    Levels(kernel, key);
    assert CanSet(tables, at, kernel, s, key.c, e);
    SetForest(tables, at, kernel, s, key.c, e);
    SetFacts(tables, at, kernel, s, key.c, e);
    var tables' := Written(tables, at[s], key.c, e);
    WrittenReads(tables, at[s], key.c, e, 0, 0);
    WriteExtends(tables, at, s, key.c, e, free, lost);
    SameKeys(tables, tables', free, lost);
    LargeMaps(tables, at, kernel, key, pa, writable, executable);
    hide Forest, Clean, Extends, MapsLarge, Written, CanSet, Pd, Pt;
  }

  lemma LargeMaps(tables: Tables, at: Places, kernel: nat, key: Key, pa: nat, writable: bool, executable: bool)
    requires var s, e := Pd(kernel, key), LargeEntry(pa, writable, executable);
             CanSet(tables, at, kernel, s, key.c, e) && s in at && at[s] in tables && key.c < ENTRIES
    ensures var tables' := Written(tables, at[Pd(kernel, key)], key.c, LargeEntry(pa, writable, executable));
            MapsLarge(tables, at, tables', at, kernel, key, pa, writable, executable)
  {
    var s, e := Pd(kernel, key), LargeEntry(pa, writable, executable);
    Levels(kernel, key);
    hide OwnTranslate, Written, CanSet, Pd, Pt;
    forall r: nat, k | ValidKey(k)
      ensures OwnTranslate(Written(tables, at[s], key.c, e), at, kernel, r, k) ==
              if r == kernel && k == key.(d := k.d) then Some(Leaf(pa + k.d * PAGE_SIZE, writable, false, executable))
              else OwnTranslate(tables, at, kernel, r, k)
    {
      LargeTranslate(tables, at, kernel, s, key.c, e, r, k);
      PdSame(kernel, key, r, k);
    }
  }

  lemma PdSame(root: nat, key: Key, r: nat, k: Key)
    ensures Pd(root, key) == Pd(r, k) && key.c == k.c <==> r == root && k == key.(d := k.d)
  {
    var x, y := Pd(root, key).path, Pd(r, k).path;
    assert x == y ==> x[0] == y[0] && x[1] == y[1];
  }

  // ------------------------------------------------------------ a table cut off

  ghost function CutAt(at: Places, c: Spot): Places {
    map t | t in at && t != c :: at[t]
  }

  function CutTables(tables: Tables, parent: nat, i: nat, f: nat): Tables
    requires parent in tables && i < ENTRIES
  {
    Written(tables, parent, i, Empty) - {f}
  }

  /** A last-level table hangs below entry `i` of directory `s`. */
  ghost predicate CanCut(tables: Tables, at: Places, kernel: nat, s: Spot, i: nat) {
    Forest(tables, at, kernel) && s in at && |s.path| == 2 && i < ENTRIES && Child(s, i) in at
  }

  lemma CutFacts(tables: Tables, at: Places, kernel: nat, s: Spot, i: nat)
    requires CanCut(tables, at, kernel, s, i)
    ensures at[s] in tables && at[Child(s, i)] in tables && |Child(s, i).path| == 3
    ensures forall t | t in at && t != s :: at[t] != at[s]
    ensures forall t | t in at && t != Child(s, i) :: at[t] != at[Child(s, i)]
    ensures EntryAt(tables, at[s], i) == Link(at[Child(s, i)], s.root != kernel)
  {
    hide AllEntries;
    assert SpotOk(tables, at, kernel, s) && SpotOk(tables, at, kernel, Child(s, i));
  }

  lemma CutReads(tables: Tables, parent: nat, i: nat, f: nat, u: nat, j: nat)
    requires parent in tables && i < ENTRIES && u != f
    ensures EntryAt(CutTables(tables, parent, i, f), u, j) == if u == parent && j == i then Empty
            else EntryAt(tables, u, j)
    ensures u in tables ==> u in CutTables(tables, parent, i, f)
  {
  }

  /** Without it the other trees are whole. */
  lemma CutForest(tables: Tables, at: Places, kernel: nat, s: Spot, i: nat)
    requires CanCut(tables, at, kernel, s, i)
    ensures at[s] in tables
            && Forest(CutTables(tables, at[s], i, at[Child(s, i)]), CutAt(at, Child(s, i)), kernel)
  {
    CutFacts(tables, at, kernel, s, i);
    var tables', at' := CutTables(tables, at[s], i, at[Child(s, i)]), CutAt(at, Child(s, i));
    hide Forest, AllSpots, AllEntries, OnePlace, SpotOk, EntryOk, CutTables;
    forall t | t in at' ensures SpotOk(tables', at', kernel, t) {
      CutSpot(tables, at, kernel, s, i, t);
    }
    forall t, j: nat | t in at' && |t.path| < 3 && j < ENTRIES ensures EntryOk(tables', at', kernel, t, j) {
      CutEntry(tables, at, kernel, s, i, t, j);
    }
    CutPlaces(tables, at, kernel, s, i);
    ForestFrom(tables', at', kernel);
  }

  lemma CutSpot(tables: Tables, at: Places, kernel: nat, s: Spot, i: nat, t: Spot)
    requires CanCut(tables, at, kernel, s, i) && t in CutAt(at, Child(s, i)) && at[s] in tables
    ensures SpotOk(CutTables(tables, at[s], i, at[Child(s, i)]), CutAt(at, Child(s, i)), kernel, t)
  {
    CutFacts(tables, at, kernel, s, i);
    assert SpotOk(tables, at, kernel, t);
    CutReads(tables, at[s], i, at[Child(s, i)], at[t], 0);
    if t.path != [] {
      SpotAgain(t);
      CutReads(tables, at[s], i, at[Child(s, i)], at[Up(t)], LastIndex(t));
    }
    hide Forest, CutTables, EntryAt;
  }

  lemma CutEntry(tables: Tables, at: Places, kernel: nat, s: Spot, i: nat, t: Spot, j: nat)
    requires CanCut(tables, at, kernel, s, i) && t in CutAt(at, Child(s, i)) && |t.path| < 3 && j < ENTRIES
             && at[s] in tables
    ensures EntryOk(CutTables(tables, at[s], i, at[Child(s, i)]), CutAt(at, Child(s, i)), kernel, t, j)
  {
    CutFacts(tables, at, kernel, s, i);
    assert EntryOk(tables, at, kernel, t, j);
    CutReads(tables, at[s], i, at[Child(s, i)], at[t], j);
    ChildSame(t, j, s, i);
    Paths(kernel, j, 0, 0);
    hide Forest, CutTables, EntryAt;
  }

  lemma ChildSame(t: Spot, j: nat, s: Spot, i: nat)
    ensures Child(t, j) == Child(s, i) <==> t == s && j == i
  {
    var x, y := t.path + [j], s.path + [i];
    assert x == y ==> x[..|x| - 1] == t.path && y[..|y| - 1] == s.path && x[|x| - 1] == j && y[|y| - 1] == i;
  }

  lemma CutPlaces(tables: Tables, at: Places, kernel: nat, s: Spot, i: nat)
    requires CanCut(tables, at, kernel, s, i) && at[s] in tables
    ensures OnePlace(CutTables(tables, at[s], i, at[Child(s, i)]), CutAt(at, Child(s, i)))
    ensures Spot(kernel, []) in CutAt(at, Child(s, i))
  {
    hide AllSpots, AllEntries;
    var at' := CutAt(at, Child(s, i));
    forall f | f in tables && f != at[Child(s, i)] ensures exists t :: t in at' && at'[t] == f {
      var t :| t in at && at[t] == f;
      assert t in at' && at'[t] == f;
    }
  }

  /** The pages below the cut have no translation any more, all others keep theirs. */
  lemma CutTranslate(tables: Tables, at: Places, kernel: nat, s: Spot, i: nat, r: nat, k: Key)
    requires CanCut(tables, at, kernel, s, i) && at[s] in tables && !(Pd(r, k) == s && k.c == i)
    ensures OwnTranslate(CutTables(tables, at[s], i, at[Child(s, i)]), CutAt(at, Child(s, i)), kernel, r, k) ==
            OwnTranslate(tables, at, kernel, r, k)
  {
    CutFacts(tables, at, kernel, s, i);
    Levels(r, k);
    ChildSame(Pd(r, k), k.c, s, i);
    if Pd(r, k) in at { CutReads(tables, at[s], i, at[Child(s, i)], at[Pd(r, k)], k.c); }
    if Pt(r, k) in at && Pt(r, k) != Child(s, i) {
      CutReads(tables, at[s], i, at[Child(s, i)], at[Pt(r, k)], k.d);
    }
    hide Forest, CutTables, EntryAt, Decided;
  }

  /** A 2 MiB page over a table: the chunk is mapped as if the table had not been there. */
  lemma CutThenLarge(tables: Tables, at: Places, kernel: nat, key: Key, tables': Tables, pa: nat, writable: bool,
                     executable: bool)
    requires CanCut(tables, at, kernel, Pd(kernel, key), key.c) && at[Pd(kernel, key)] in tables
    requires var s := Pd(kernel, key);
             MapsLarge(CutTables(tables, at[s], key.c, at[Child(s, key.c)]), CutAt(at, Child(s, key.c)), tables',
               CutAt(at, Child(s, key.c)), kernel, key, pa, writable, executable)
    ensures MapsLarge(tables, at, tables', CutAt(at, Child(Pd(kernel, key), key.c)), kernel, key, pa, writable,
              executable)
  {
    CutFacts(tables, at, kernel, Pd(kernel, key), key.c);
    KeyInside(tables, at, kernel, key);
    hide *;
    var s := Pd(kernel, key);
    var tables1, at1 := CutTables(tables, at[s], key.c, at[Child(s, key.c)]), CutAt(at, Child(s, key.c));
    forall r: nat, k | ValidKey(k)
      ensures OwnTranslate(tables', at1, kernel, r, k) ==
              if r == kernel && k == key.(d := k.d) then Some(Leaf(pa + k.d * PAGE_SIZE, writable, false, executable))
              else OwnTranslate(tables, at, kernel, r, k)
    {
      LargeAt(tables1, at1, tables', at1, kernel, key, pa, writable, executable, r, k);
      PdSame(kernel, key, r, k);
      if !(Pd(r, k) == s && k.c == key.c) { CutTranslate(tables, at, kernel, s, key.c, r, k); }
    }
    IsLarge(tables, at, tables', at1, kernel, key, pa, writable, executable);
  }

  lemma KeyInside(tables: Tables, at: Places, kernel: nat, key: Key)
    requires CanCut(tables, at, kernel, Pd(kernel, key), key.c)
    ensures key.c < ENTRIES && Pd(kernel, key) in at && Child(Pd(kernel, key), key.c) in at
  {
    hide Forest;
  }

  lemma LargeAt(tables: Tables, at: Places, tables': Tables, at': Places, kernel: nat, key: Key, pa: nat,
                writable: bool, executable: bool, r: nat, k: Key)
    requires MapsLarge(tables, at, tables', at', kernel, key, pa, writable, executable) && ValidKey(k)
    ensures OwnTranslate(tables', at', kernel, r, k) ==
            if r == kernel && k == key.(d := k.d) then Some(Leaf(pa + k.d * PAGE_SIZE, writable, false, executable))
            else OwnTranslate(tables, at, kernel, r, k)
  {
    hide OwnTranslate;
  }

  lemma IsLarge(tables: Tables, at: Places, tables': Tables, at': Places, kernel: nat, key: Key, pa: nat,
                writable: bool, executable: bool)
    requires forall r: nat, k | ValidKey(k) ::
               OwnTranslate(tables', at', kernel, r, k) ==
               if r == kernel && k == key.(d := k.d) then Some(Leaf(pa + k.d * PAGE_SIZE, writable, false, executable))
               else OwnTranslate(tables, at, kernel, r, k)
    ensures MapsLarge(tables, at, tables', at', kernel, key, pa, writable, executable)
  {
    hide OwnTranslate;
  }

  lemma CanCutIs(tables: Tables, at: Places, kernel: nat, s: Spot, i: nat)
    ensures CanCut(tables, at, kernel, s, i) <==>
            Forest(tables, at, kernel) && s in at && |s.path| == 2 && i < ENTRIES && Child(s, i) in at
  {
    hide Forest;
  }

  /** An entry leads on exactly if a table hangs below it. */
  lemma CutEntryIs(tables: Tables, at: Places, kernel: nat, s: Spot, i: nat)
    requires Forest(tables, at, kernel) && s in at && at[s] in tables && |s.path| == 2 && i < ENTRIES
    ensures Child(s, i) in at ==> CanCut(tables, at, kernel, s, i) && tables[at[s]][i].present
                                  && !tables[at[s]][i].large && tables[at[s]][i].addr == at[Child(s, i)]
  {
    CanCutIs(tables, at, kernel, s, i);
    if Child(s, i) in at {
      CutFacts(tables, at, kernel, s, i);
    }
    hide Forest, CanCut;
  }

  lemma CutAtIs(at: Places, c: Spot, s: Spot)
    ensures c !in CutAt(at, c) && (s in at && s != c ==> s in CutAt(at, c) && CutAt(at, c)[s] == at[s])
  {
  }

  lemma CutTablesIs(tables: Tables, parent: nat, i: nat, f: nat)
    requires parent in tables && i < ENTRIES
    ensures CutTables(tables, parent, i, f) == tables[parent := tables[parent][i := Empty]] - {f}
  {
  }

  lemma KeyIs(k: Key)
    ensures ValidKey(k) ==> k.c < ENTRIES
  {
  }

  lemma CutClean(tables: Tables, free: seq<Range>, lost: seq<Range>, parent: nat, i: nat, f: nat)
    requires Clean(tables, free, lost) && parent in tables && i < ENTRIES
    ensures Clean(CutTables(tables, parent, i, f), free, lost)
    ensures CutTables(tables, parent, i, f).Keys == tables.Keys - {f}
    ensures f in tables ==> !Returned(free, lost, f)
  {
    hide Returned;
    if f in tables {
      assert InUse(free, lost, f) && InPage(f, f);
    }
  }

  /** Where a last-level table is there, so is all above it, and nothing new was made. */
  lemma NothingNew(t0: Tables, at0: Places, free0: seq<Range>, t1: Tables, at1: Places, free1: seq<Range>,
                   lost: seq<Range>, kernel: nat, root: nat, k: Key)
    requires Forest(t0, at0, kernel) && Forest(t1, at1, kernel)
             && Extends(t0, at0, free0, lost, t1, at1, free1, lost, root)
    requires NewUpper(at0, at1, root, k.a, k.b) && Paid(at0, free0, at1, free1) && Pt(root, k) in at0
    ensures at1 == at0 && free1 == free0 && t1.Keys == t0.Keys
    ensures Spot(root, [k.a, k.b]) in at0
  {
    hide *;
    Levels(root, k);
    PdIs(root, k);
    Paths(root, k.a, k.b, k.c);
    UpIn(t0, at0, kernel, Pt(root, k));
    UpIn(t0, at0, kernel, Pd(root, k));
    InExtended(t0, at0, free0, t1, at1, free1, lost, root);
    UpperThere(at0, at1, root, k.a, k.b);
    SameSpots(t0, at0, free0, t1, at1, free1, lost, root);
    PaidNothing(at0, free0, at1, free1);
    SameTables(t0, t1, at0, kernel);
  }

  lemma UpperThere(at0: Places, at1: Places, root: nat, a: nat, b: nat)
    requires NewUpper(at0, at1, root, a, b) && Spot(root, [a]) in at0 && Spot(root, [a, b]) in at0
    requires forall s | s in at0 :: s in at1
    ensures at1.Keys == at0.Keys
  {
  }

  lemma SameSpots(t0: Tables, at0: Places, free0: seq<Range>, t1: Tables, at1: Places, free1: seq<Range>,
                  lost: seq<Range>, root: nat)
    requires Extends(t0, at0, free0, lost, t1, at1, free1, lost, root) && at1.Keys == at0.Keys
    ensures at1 == at0
  {
    hide TopKept, Returned, Added;
  }

  lemma SameTables(t0: Tables, t1: Tables, at: Places, kernel: nat)
    requires Forest(t0, at, kernel) && Forest(t1, at, kernel)
    ensures t1.Keys == t0.Keys
  {
    TablesOf(t0, at, kernel);
    TablesOf(t1, at, kernel);
  }

  lemma TablesOf(tables: Tables, at: Places, kernel: nat)
    requires Forest(tables, at, kernel)
    ensures tables.Keys == at.Values
  {
    hide AllEntries;
    forall f | f in at.Values ensures f in tables {
      var s :| s in at && at[s] == f;
      assert SpotOk(tables, at, kernel, s);
    }
  }

  // ------------------------------------------------------------- the boot map

  const LOW_PAGES := 0x10_0000

  /** The page a key stands for. */
  function PageOf(k: Key): nat {
    ((k.a * 512 + k.b) * 512 + k.c) * 512 + k.d
  }

  lemma PageOfKey(v: nat)
    requires v < 0x10_0000_0000
    ensures PageOf(PageKey(v)) == v
  {
    KeyParts(v);
  }

  lemma KeyOfPage(k: Key)
    requires ValidKey(k)
    ensures PageKey(PageOf(k)) == k && PageOf(k) < 0x10_0000_0000
  {
    Digit(k.a, k.b);
    Digit(k.a * 512 + k.b, k.c);
    Digit((k.a * 512 + k.b) * 512 + k.c, k.d);
    assert k.a % 512 == k.a;
  }

  lemma Digit(x: nat, d: nat)
    requires d < 512
    ensures (x * 512 + d) / 512 == x && (x * 512 + d) % 512 == d
  {
  }

  /** A page at its own address, open to the kernel for everything. */
  function Identity(v: nat): Option<Leaf> {
    Some(Leaf(v * PAGE_SIZE, true, false, true))
  }

  /** The first `m` pages but for page 0, identity mapped. */
  function Low(k: Key, m: nat): Option<Leaf> {
    if 1 <= PageOf(k) < m then Identity(PageOf(k)) else None
  }

  ghost predicate ShowsLow(tables: Tables, at: Places, kernel: nat, m: nat) {
    forall k | ValidKey(k) :: OwnTranslate(tables, at, kernel, kernel, k) == Low(k, m)
  }

  /** No last-level table serves a page from `m` on. */
  ghost predicate NoTablesFrom(at: Places, kernel: nat, m: nat) {
    forall k | ValidKey(k) && PageOf(k) >= m :: Pt(kernel, k) !in at
  }

  /** Nothing but an empty root. */
  lemma BareRoot(f: nat, free: seq<Range>, lost: seq<Range>)
    requires Clean(map[], free, lost) && InUse(free, lost, f)
    ensures var tables, at: Places := map[f := EmptyTable], map[Spot(f, []) := f];
            && Forest(tables, at, f) && Clean(tables, free, lost) && ShowsLow(tables, at, f, 1)
              && NoTablesFrom(at, f, 0)
            && Spot(f, []) in at
  {
    var tables, at: Places := map[f := EmptyTable], map[Spot(f, []) := f];
    assert at[Spot(f, [])] == f;
    hide Returned, InUse;
    assert OnePlace(tables, at);
    assert forall i: nat | i < ENTRIES :: EntryAt(tables, f, i) == Empty;
  }

  /** The first 2 MiB but for page 0. */
  lemma FirstPages(t0: Tables, at0: Places, t1: Tables, at1: Places, kernel: nat)
    requires ShowsLow(t0, at0, kernel, 1) && NoTablesFrom(at0, kernel, 0)
    requires MapsRange(t0, at0, t1, at1, kernel, kernel, 1, 1, 511, true, false, true)
             && NewFor(at0, at1, kernel, 1, 511)
    ensures ShowsLow(t1, at1, kernel, 512) && NoTablesFrom(at1, kernel, 512)
  {
    hide OwnTranslate, Pt, OnWay;
    forall k | ValidKey(k) ensures OwnTranslate(t1, at1, kernel, kernel, k) == Low(k, 512) {
      KeyOfPage(k);
      OverlaidPages(Low(k, 1), 1, 1, 511, true, false, true, PageOf(k));
      FramePlain(PageOf(k), true, false, true);
      assert OwnTranslate(t0, at0, kernel, kernel, k) == Low(k, 1);
    }
    FirstTables(at0, at1, kernel);
  }

  lemma FirstTables(at0: Places, at1: Places, kernel: nat)
    requires NoTablesFrom(at0, kernel, 0) && NewFor(at0, at1, kernel, 1, 511)
    ensures NoTablesFrom(at1, kernel, 512)
  {
    hide Pt, OnWay, PageKey;
    forall k | ValidKey(k) && PageOf(k) >= 512 ensures Pt(kernel, k) !in at1 {
      Levels(kernel, k);
      assert Pt(kernel, k) !in at0;
      if Pt(kernel, k) in at1 {
        var v: nat :| 1 <= v < 512 && OnWay(Pt(kernel, k), kernel, PageKey(v));
        ThirdIs(kernel, k, PageKey(v));
        SamePt(kernel, k, PageKey(v));
        KeyParts(v);
      }
    }
  }

  lemma ThirdIs(r: nat, k: Key, j: Key)
    requires OnWay(Pt(r, k), r, j)
    ensures Pt(r, k) == Pt(r, j)
  {
    assert |Pt(r, k).path| == 3 && |[j.a]| == 1 && |Pd(r, j).path| == 2;
  }

  lemma SamePt(r: nat, k: Key, j: Key)
    requires Pt(r, k) == Pt(r, j)
    ensures k.a == j.a && k.b == j.b && k.c == j.c
  {
    var x, y := Pt(r, k).path, Pt(r, j).path;
    assert x[0] == y[0] && x[1] == y[1] && x[2] == y[2];
  }

  lemma FirstSize()
    ensures PAGE_SIZE / PAGE_SIZE == 1 && RangePages(PAGE_SIZE, SIZE_2M - PAGE_SIZE) == 511
            && RangeFits(PAGE_SIZE, PAGE_SIZE, SIZE_2M - PAGE_SIZE)
  {
  }

  lemma ChunkKey(n: nat)
    requires n < 0x800_0000
    ensures var key := KeyOf(n * SIZE_2M);
            && ValidKey(key) && PageOf(key) == n * 512 && key.d == 0
            && forall k | ValidKey(k) :: k == key.(d := k.d) <==> n * 512 <= PageOf(k) < (n + 1) * 512
  {
    ChunkPage(n);
    var key := PageKey(n * 512);
    PageOfKey(n * 512);
    hide PageOf, PageKey;
    forall k | ValidKey(k) ensures k == key.(d := k.d) <==> n * 512 <= PageOf(k) < (n + 1) * 512 {
      ChunkOf(k, key);
    }
  }

  lemma ChunkPage(n: nat)
    ensures KeyOf(n * SIZE_2M) == PageKey(n * 512) && PageKey(n * 512).d == 0
  {
    assert n * SIZE_2M / PAGE_SIZE == n * 512;
    hide PageKey;
    LastIndexOf(n);
  }

  lemma LastIndexOf(n: nat)
    ensures PageKey(n * 512).d == 0
  {
  }

  lemma ChunkOf(k: Key, key: Key)
    requires ValidKey(k) && ValidKey(key) && key.d == 0
    ensures k == key.(d := k.d) <==> PageOf(key) <= PageOf(k) < PageOf(key) + 512
  {
  }

  lemma NextChunk(t0: Tables, at0: Places, t1: Tables, at1: Places, t2: Tables, at2: Places, kernel: nat, n: nat)
    requires ShowsLow(t0, at0, kernel, n * 512) && SameMaps(t0, at0, t1, at1, kernel) && 1 <= n < 0x800_0000
    requires MapsLarge(t1, at1, t2, at2, kernel, KeyOf(n * SIZE_2M), n * SIZE_2M, true, true)
    ensures ShowsLow(t2, at2, kernel, (n + 1) * 512)
  {
    ChunkKey(n);
    hide OwnTranslate, KeyOf;
    forall k | ValidKey(k) ensures OwnTranslate(t2, at2, kernel, kernel, k) == Low(k, (n + 1) * 512) {
      assert OwnTranslate(t0, at0, kernel, kernel, k) == Low(k, n * 512);
      var key := KeyOf(n * SIZE_2M);
      if k == key.(d := k.d) {
        assert PageOf(k) == PageOf(key) + k.d;
      }
    }
  }

  lemma TablesStay(at: Places, at': Places, kernel: nat, m: nat)
    requires NoTablesFrom(at, kernel, m) && NoNewLast(at, at')
    ensures NoTablesFrom(at', kernel, m)
  {
    forall k | ValidKey(k) && PageOf(k) >= m ensures Pt(kernel, k) !in at' {
      Levels(kernel, k);
    }
  }

  // --------------------------------------------------------------- the kernel image

  /** The marks the linker leaves, in the order it leaves them. */
  datatype Image = Image(start: nat, textStart: nat, textEnd: nat, rodataStart: nat, rodataEnd: nat, dataStart: nat,
                         end: nat)

  const LOW_LIMIT := 0x1_0000_0000

  ghost predicate Linked(i: Image) {
    && SIZE_2M <= i.start <= i.end <= LOW_LIMIT
    && SIZE_2M <= i.textStart <= i.textEnd <= i.rodataStart <= i.rodataEnd <= i.dataStart <= i.end
  }

  /** Splitting the chunks the image lies in moves no page; where a chunk had no entry it becomes
      identity mapped. */
  ghost predicate Filled(tables: Tables, at: Places, tables': Tables, at': Places, kernel: nat, lo: nat, hi: nat) {
    forall k | ValidKey(k) ::
      var x, x' := OwnTranslate(tables, at, kernel, kernel, k), OwnTranslate(tables', at', kernel, kernel, k);
      x' == x || (x == None && lo * 512 <= PageOf(k) < hi * 512 && x' == Identity(PageOf(k)))
  }

  lemma FilledSame(tables: Tables, at: Places, kernel: nat, lo: nat)
    ensures Filled(tables, at, tables, at, kernel, lo, lo)
  {
    hide OwnTranslate;
  }

  lemma FilledMore(t0: Tables, at0: Places, t1: Tables, at1: Places, t2: Tables, at2: Places, kernel: nat, lo: nat,
                   n: nat)
    requires Filled(t0, at0, t1, at1, kernel, lo, n) && Filled(t1, at1, t2, at2, kernel, n, n + 1) && lo <= n
    ensures Filled(t0, at0, t2, at2, kernel, lo, n + 1)
  {
    hide OwnTranslate;
    forall k | ValidKey(k)
      ensures var x, x' := OwnTranslate(t0, at0, kernel, kernel, k), OwnTranslate(t2, at2, kernel, kernel, k);
              x' == x || (x == None && lo * 512 <= PageOf(k) < (n + 1) * 512 && x' == Identity(PageOf(k)))
    {
      var y := OwnTranslate(t1, at1, kernel, kernel, k);
    }
  }

  lemma SameIsFilled(t0: Tables, at0: Places, t1: Tables, at1: Places, kernel: nat, n: nat)
    requires SameMaps(t0, at0, t1, at1, kernel)
    ensures Filled(t0, at0, t1, at1, kernel, n, n + 1)
  {
    hide OwnTranslate;
  }

  lemma FilledAround(t0: Tables, at0: Places, t1: Tables, at1: Places, t2: Tables, at2: Places, t3: Tables, at3: Places,
                     kernel: nat, n: nat)
    requires SameMaps(t0, at0, t1, at1, kernel) && Filled(t1, at1, t2, at2, kernel, n, n + 1)
             && SameMaps(t2, at2, t3, at3, kernel)
    ensures Filled(t0, at0, t3, at3, kernel, n, n + 1)
  {
    hide OwnTranslate;
    forall k | ValidKey(k)
      ensures var x, x' := OwnTranslate(t0, at0, kernel, kernel, k), OwnTranslate(t3, at3, kernel, kernel, k);
              x' == x || (x == None && n * 512 <= PageOf(k) < (n + 1) * 512 && x' == Identity(PageOf(k)))
    {
      var y, z := OwnTranslate(t1, at1, kernel, kernel, k), OwnTranslate(t2, at2, kernel, kernel, k);
    }
  }

  /** Giving an empty directory entry a 2 MiB page fills its chunk. */
  lemma ChunkFilled(t1: Tables, at: Places, t2: Tables, kernel: nat, n: nat)
    requires n < 0x800_0000
    requires var key := KeyOf(n * SIZE_2M);
             && MapsLarge(t1, at, t2, at, kernel, key, n * SIZE_2M, true, true)
             && Pd(kernel, key) in at && EntryAt(t1, at[Pd(kernel, key)], key.c) == Empty
               && Child(Pd(kernel, key), key.c) !in at
    ensures Filled(t1, at, t2, at, kernel, n, n + 1)
  {
    ChunkKey(n);
    var key := KeyOf(n * SIZE_2M);
    hide OwnTranslate, KeyOf, Pd, Child, EntryAt;
    forall k | ValidKey(k)
      ensures var x, x' := OwnTranslate(t1, at, kernel, kernel, k), OwnTranslate(t2, at, kernel, kernel, k);
              x' == x || (x == None && n * 512 <= PageOf(k) < (n + 1) * 512 && x' == Identity(PageOf(k)))
    {
      if k == key.(d := k.d) {
        PdSame(kernel, key, kernel, k);
        NothingThere(t1, at, kernel, kernel, k);
        assert PageOf(k) == PageOf(key) + k.d;
      }
    }
  }

  /** All the image's chunks are mapped already, so splitting them moves nothing. */
  lemma LowIsFilled(t0: Tables, at0: Places, t1: Tables, at1: Places, kernel: nat, lo: nat, hi: nat)
    requires ShowsLow(t0, at0, kernel, LOW_PAGES) && Filled(t0, at0, t1, at1, kernel, lo, hi)
    requires 1 <= lo && hi * 512 <= LOW_PAGES
    ensures ShowsLow(t1, at1, kernel, LOW_PAGES)
  {
    hide OwnTranslate;
    forall k | ValidKey(k) ensures OwnTranslate(t1, at1, kernel, kernel, k) == Low(k, LOW_PAGES) {
      assert OwnTranslate(t0, at0, kernel, kernel, k) == Low(k, LOW_PAGES);
    }
  }

  function Over(before: Option<Leaf>, k: Key, start: nat, size: nat, writable: bool, executable: bool): Option<Leaf> {
    Overlaid(before, k, start / PAGE_SIZE, start / PAGE_SIZE, RangePages(start, size), writable, false, executable)
  }

  /** The boot map after each of the image's sections: text without writing, read-only data and
      data without execution. */
  ghost function Stage(k: Key, i: Image, n: nat): Option<Leaf>
    requires Linked(i)
  {
    if n == 0 then Low(k, LOW_PAGES)
    else if n == 1 then Over(Low(k, LOW_PAGES), k, i.textStart, i.textEnd - i.textStart, false, true)
    else if n == 2 then Over(Stage(k, i, 1), k, i.rodataStart, i.rodataEnd - i.rodataStart, false, false)
    else if i.end > i.dataStart then Over(Stage(k, i, 2), k, i.dataStart, i.end - i.dataStart, true, false)
    else Stage(k, i, 2)
  }

  ghost predicate Shows(tables: Tables, at: Places, kernel: nat, i: Image, n: nat)
    requires Linked(i)
  {
    forall k | ValidKey(k) :: OwnTranslate(tables, at, kernel, kernel, k) == Stage(k, i, n)
  }

  lemma ShowsNext(t0: Tables, at0: Places, t1: Tables, at1: Places, kernel: nat, i: Image, n: nat,
                  start: nat, size: nat, writable: bool, executable: bool)
    requires Linked(i) && Shows(t0, at0, kernel, i, n)
    requires MapsRange(t0, at0, t1, at1, kernel, kernel, start / PAGE_SIZE, start / PAGE_SIZE, RangePages(start, size),
             writable, false, executable)
    requires || (n == 0 && start == i.textStart && size == i.textEnd - start && !writable && executable)
             || (n == 1 && start == i.rodataStart && size == i.rodataEnd - start && !writable && !executable)
             || (n == 2 && start == i.dataStart && size == i.end - start && writable && !executable && size > 0)
    ensures Shows(t1, at1, kernel, i, n + 1)
  {
    hide OwnTranslate, Overlaid, RangePages;
    forall k | ValidKey(k) ensures OwnTranslate(t1, at1, kernel, kernel, k) == Stage(k, i, n + 1) {
      assert OwnTranslate(t0, at0, kernel, kernel, k) == Stage(k, i, n);
    }
  }

  lemma ShowsNoData(tables: Tables, at: Places, kernel: nat, i: Image)
    requires Linked(i) && Shows(tables, at, kernel, i, 2) && i.end <= i.dataStart
    ensures Shows(tables, at, kernel, i, 3)
  {
    hide OwnTranslate, Over;
  }

  lemma ShowsFirst(tables: Tables, at: Places, kernel: nat, i: Image)
    requires Linked(i) && ShowsLow(tables, at, kernel, LOW_PAGES)
    ensures Shows(tables, at, kernel, i, 0)
  {
    hide OwnTranslate, Low;
  }

  /** What the boot information says of a frame buffer: its base, pixels per line and lines. */
  datatype Screen = NoScreen | Screen(base: nat, perLine: nat, height: nat)

  predicate Words(screen: Screen) {
    screen.Screen? ==> screen.base < WORD
  }

  /** Four bytes a pixel, in machine arithmetic. */
  function ScreenBytes(screen: Screen): (size: nat)
    requires screen.Screen?
    ensures size < WORD
  {
    screen.perLine * screen.height * 4 % WORD
  }

  predicate Drawn(screen: Screen) {
    screen.Screen? && screen.base != 0
  }

  /** The map the kernel starts with. */
  ghost function Booted(k: Key, i: Image, screen: Screen): Option<Leaf>
    requires Linked(i)
  {
    if Drawn(screen) then Over(Stage(k, i, 3), k, screen.base, ScreenBytes(screen), true, false) else Stage(k, i, 3)
  }

  ghost predicate ShowsBooted(tables: Tables, at: Places, kernel: nat, i: Image, screen: Screen)
    requires Linked(i)
  {
    forall k | ValidKey(k) :: OwnTranslate(tables, at, kernel, kernel, k) == Booted(k, i, screen)
  }

  lemma ShowsScreen(t0: Tables, at0: Places, t1: Tables, at1: Places, kernel: nat, i: Image, screen: Screen)
    requires Linked(i) && Shows(t0, at0, kernel, i, 3)
    requires if Drawn(screen) then MapsRange(t0, at0, t1, at1, kernel, kernel, screen.base / PAGE_SIZE,
             screen.base / PAGE_SIZE,
                                             RangePages(screen.base, ScreenBytes(screen)), true, false, false)
             else t1 == t0 && at1 == at0
    ensures ShowsBooted(t1, at1, kernel, i, screen)
  {
    hide OwnTranslate, Overlaid, RangePages, Stage, ScreenBytes;
    forall k | ValidKey(k) ensures OwnTranslate(t1, at1, kernel, kernel, k) == Booted(k, i, screen) {
      assert OwnTranslate(t0, at0, kernel, kernel, k) == Stage(k, i, 3);
    }
  }

  /** The processor walks the kernel's tables to exactly the boot map. */
  lemma BootTranslates(tables: Tables, at: Places, kernel: nat, i: Image, screen: Screen)
    requires Linked(i) && Forest(tables, at, kernel) && ShowsBooted(tables, at, kernel, i, screen)
    ensures forall k | ValidKey(k) :: Translate(tables, kernel, k) == Booted(k, i, screen)
  {
    hide Booted, Translate, OwnTranslate, Forest;
    KernelSpot(tables, at, kernel);
    forall k | ValidKey(k) ensures Translate(tables, kernel, k) == Booted(k, i, screen) {
      TranslateOwned(tables, at, kernel, kernel, k);
    }
  }

  /** Page `v` is one the rounded range covers. */
  predicate Covers(start: nat, end: nat, v: nat) {
    start < end && start / PAGE_SIZE <= v < (end + PAGE_SIZE - 1) / PAGE_SIZE
  }

  lemma OverPages(before: Option<Leaf>, v: nat, start: nat, size: nat, writable: bool, executable: bool)
    requires v < 0x10_0000_0000 && start + size <= 0x1_0000_0000_0000 && size > 0
    ensures Over(before, PageKey(v), start, size, writable, executable) ==
            if Covers(start, start + size, v) then Some(Leaf(v * PAGE_SIZE, writable, false, executable)) else before
  {
    FramePlain(v, writable, false, executable);
    hide FrameLeaf;
    RangeIs(start, size);
    OverlaidPages(before, start / PAGE_SIZE, start / PAGE_SIZE, RangePages(start, size), writable, false, executable,
      v);
  }

  lemma RangeIs(start: nat, size: nat)
    requires start + size <= 0x1_0000_0000_0000 && size > 0
    ensures start / PAGE_SIZE + RangePages(start, size) == (start + size + PAGE_SIZE - 1) / PAGE_SIZE <= 0x10_0000_0000
  {
    var end := start + size + PAGE_SIZE - 1;
    assert end % WORD == end;
  }

  /** The sections are read and run as the linker means them, the rest below 4 GiB is mapped to
      itself, page 0 is not, and the frame buffer is on top. */
  lemma BootedMeans(v: nat, i: Image, screen: Screen)
    requires Linked(i) && i.textStart < i.textEnd && i.rodataStart < i.rodataEnd && v < 0x10_0000_0000
    requires Drawn(screen) ==> 0 < ScreenBytes(screen) && screen.base + ScreenBytes(screen) <= 0x1_0000_0000_0000
    ensures Booted(PageKey(v), i, screen) ==
            if Drawn(screen) && Covers(screen.base, screen.base + ScreenBytes(screen), v) then
              Some(Leaf(v * PAGE_SIZE, true, false, false))
            else if Covers(i.dataStart, i.end, v) then Some(Leaf(v * PAGE_SIZE, true, false, false))
            else if Covers(i.rodataStart, i.rodataEnd, v) then Some(Leaf(v * PAGE_SIZE, false, false, false))
            else if Covers(i.textStart, i.textEnd, v) then Some(Leaf(v * PAGE_SIZE, false, false, true))
            else if 1 <= v < LOW_PAGES then Some(Leaf(v * PAGE_SIZE, true, false, true))
            else None
  {
    hide *;
    BootStages(PageKey(v), i, screen);
    ImageMeans(v, i);
    if Drawn(screen) { OverPages(Stage(PageKey(v), i, 3), v, screen.base, ScreenBytes(screen), true, false); }
  }

  /** Some byte of a pixel of the frame buffer, of four bytes each, lies in page `v`. */
  ghost predicate ShowsPixel(screen: Screen, v: nat) {
    screen.Screen? && screen.base != 0
    && exists x: nat, y: nat, j: nat ::
         x < screen.perLine && y < screen.height && j < 4 && PixelByte(screen, x, y, j) / PAGE_SIZE == v
  }

  function PixelByte(screen: Screen, x: nat, y: nat, j: nat): nat
    requires screen.Screen?
  {
    screen.base + 4 * (y * screen.perLine + x) + j
  }

  /** Every pixel can be drawn: its pages are mapped to themselves for writing, and no other page
      changes for the frame buffer. */
  lemma PixelPages(i: Image, screen: Screen, v: nat)
    requires Linked(i) && v < 0x10_0000_0000
    requires screen.Screen? && screen.base != 0 ==> SomePixels(screen)
    ensures Booted(PageKey(v), i, screen) ==
            if ShowsPixel(screen, v) then Some(Leaf(v * PAGE_SIZE, true, false, false))
            else Booted(PageKey(v), i, NoScreen)
  {
    DrawnPixels(screen, v);
    hide *;
    BootStages(PageKey(v), i, screen);
    BootStages(PageKey(v), i, NoScreen);
    DrawnIs(screen);
    DrawnIs(NoScreen);
    if Drawn(screen) { OverPages(Stage(PageKey(v), i, 3), v, screen.base, ScreenBytes(screen), true, false); }
  }

  /** There are pixels, and they lie below 2^48. */
  predicate SomePixels(screen: Screen)
    requires screen.Screen?
  {
    screen.perLine > 0 && screen.height > 0
    && screen.base + 4 * (screen.perLine * screen.height) <= 0x1_0000_0000_0000
  }

  lemma DrawnPixels(screen: Screen, v: nat)
    requires screen.Screen? && screen.base != 0 ==> SomePixels(screen)
    ensures Drawn(screen) ==> 0 < ScreenBytes(screen) && screen.base + ScreenBytes(screen) <= 0x1_0000_0000_0000
                              && (ShowsPixel(screen, v) <==>
                                  Covers(screen.base, screen.base + ScreenBytes(screen), v))
    ensures !Drawn(screen) ==> !ShowsPixel(screen, v)
  {
    if Drawn(screen) {
      var n := screen.perLine * screen.height;
      assert n > 0 by { Rows(1, screen.height, screen.perLine); }
      assert screen.perLine * screen.height * 4 == 4 * n;
      assert ScreenBytes(screen) == 4 * n;
      if x: nat, y: nat, j: nat :|
        x < screen.perLine && y < screen.height && j < 4 && PixelByte(screen, x, y, j) / PAGE_SIZE == v
      {
        PixelInside(screen, x, y, j);
        InCovered(screen.base, screen.base + 4 * n, PixelByte(screen, x, y, j));
      }
      if n > 0 && Covers(screen.base, screen.base + 4 * n, v) {
        var a := if v * PAGE_SIZE < screen.base then screen.base else v * PAGE_SIZE;
        CoveredByte(screen.base, screen.base + 4 * n, v);
        PixelOf(screen, a);
      }
    }
  }

  /** Such a frame buffer is never why start-up fails. */
  lemma PixelsFit(screen: Screen)
    requires screen.Screen? && screen.base != 0 && SomePixels(screen)
    ensures Drawn(screen) && RangeFits(screen.base, screen.base, ScreenBytes(screen))
  {
    DrawnPixels(screen, 0);
    Sizes();
    hide ScreenBytes, SomePixels;
  }

  lemma PixelInside(screen: Screen, x: nat, y: nat, j: nat)
    requires screen.Screen? && x < screen.perLine && y < screen.height && j < 4
    ensures screen.base <= PixelByte(screen, x, y, j) < screen.base + 4 * (screen.perLine * screen.height)
  {
    var w := screen.perLine;
    assert y * w + x < (y + 1) * w;
    assert (y + 1) * w <= w * screen.height by { Rows(y + 1, screen.height, w); }
  }

  lemma Rows(y: nat, h: nat, w: nat)
    requires y <= h
    ensures y * w <= w * h
  {
    assert y * w <= h * w;
  }

  lemma InCovered(start: nat, end: nat, a: nat)
    requires start <= a < end
    ensures Covers(start, end, a / PAGE_SIZE)
  {
  }

  lemma CoveredByte(start: nat, end: nat, v: nat)
    requires Covers(start, end, v)
    ensures var a := if v * PAGE_SIZE < start then start else v * PAGE_SIZE;
            start <= a < end && a / PAGE_SIZE == v
  {
  }

  lemma RowInside(k: nat, w: nat, h: nat)
    requires w > 0 && k < w * h
    ensures k / w < h
  {
    var y := k / w;
    assert y * w <= k;
    if y >= h {
      Rows(h, y, w);
      assert false;
    }
  }

  lemma PixelOf(screen: Screen, a: nat)
    requires screen.Screen? && screen.base <= a < screen.base + 4 * (screen.perLine * screen.height)
    ensures exists x: nat, y: nat, j: nat ::
              x < screen.perLine && y < screen.height && j < 4 && PixelByte(screen, x, y, j) == a
  {
    var w, k := screen.perLine, (a - screen.base) / 4;
    assert k < w * screen.height;
    assert w > 0;
    var x, y, j := k % w, k / w, (a - screen.base) % 4;
    assert y * w + x == k;
    RowInside(k, w, screen.height);
    assert PixelByte(screen, x, y, j) == a;
  }

  lemma ImageMeans(v: nat, i: Image)
    requires Linked(i) && i.textStart < i.textEnd && i.rodataStart < i.rodataEnd && v < 0x10_0000_0000
    ensures Stage(PageKey(v), i, 3) ==
            if Covers(i.dataStart, i.end, v) then Some(Leaf(v * PAGE_SIZE, true, false, false))
            else if Covers(i.rodataStart, i.rodataEnd, v) then Some(Leaf(v * PAGE_SIZE, false, false, false))
            else if Covers(i.textStart, i.textEnd, v) then Some(Leaf(v * PAGE_SIZE, false, false, true))
            else if 1 <= v < LOW_PAGES then Some(Leaf(v * PAGE_SIZE, true, false, true))
            else None
  {
    hide *;
    Limits();
    var k := PageKey(v);
    BootStages(k, i, NoScreen);
    LowPage(v);
    SectionOver(Low(k, LOW_PAGES), v, i.textStart, i.textEnd, false, true);
    SectionOver(Stage(k, i, 1), v, i.rodataStart, i.rodataEnd, false, false);
    SectionOver(Stage(k, i, 2), v, i.dataStart, i.end, true, false);
  }

  /** A section that may be empty. */
  lemma SectionOver(before: Option<Leaf>, v: nat, start: nat, end: nat, writable: bool, executable: bool)
    requires v < 0x10_0000_0000 && start <= end <= 0x1_0000_0000
    ensures (if start < end then Over(before, PageKey(v), start, end - start, writable, executable) else before) ==
            if Covers(start, end, v) then Some(Leaf(v * PAGE_SIZE, writable, false, executable)) else before
  {
    hide Over, PageKey;
    if start < end { OverPages(before, v, start, end - start, writable, executable); }
  }

  lemma BootStages(k: Key, i: Image, screen: Screen)
    requires Linked(i)
    ensures i.textStart <= i.textEnd <= i.rodataStart <= i.rodataEnd <= i.dataStart <= i.end <= 0x1_0000_0000
    ensures Stage(k, i, 1) == Over(Low(k, LOW_PAGES), k, i.textStart, i.textEnd - i.textStart, false, true)
    ensures Stage(k, i, 2) == Over(Stage(k, i, 1), k, i.rodataStart, i.rodataEnd - i.rodataStart, false, false)
    ensures Stage(k, i, 3) ==
            if i.end > i.dataStart then Over(Stage(k, i, 2), k, i.dataStart, i.end - i.dataStart, true, false)
              else Stage(k, i, 2)
    ensures Booted(k, i, screen) ==
            if Drawn(screen) then Over(Stage(k, i, 3), k, screen.base, ScreenBytes(screen), true, false)
              else Stage(k, i, 3)
    ensures Drawn(screen) ==> screen.Screen?
  {
    hide Over, Low, ScreenBytes;
  }

  lemma LowPage(v: nat)
    requires v < 0x10_0000_0000
    ensures Low(PageKey(v), LOW_PAGES) == if 1 <= v < LOW_PAGES then Some(Leaf(v * PAGE_SIZE, true, false, true))
            else None
  {
    PageOfKey(v);
    hide PageOf, PageKey;
  }

  lemma Limits()
    ensures LOW_PAGES == 0x10_0000 && PAGE_SIZE == 0x1000 && LOW_TABLES == 2054
  {
  }

  // ------------------------------------------------------ the tables of the boot map

  const LOW_TABLES := 2054     // a root, a table of directories, 4 directories and 2048 tables

  function ScreenStart(screen: Screen): nat {
    if Drawn(screen) then screen.base / PAGE_SIZE else 0
  }

  function ScreenPages(screen: Screen): nat {
    if Drawn(screen) then RangePages(screen.base, ScreenBytes(screen)) else 0
  }

  lemma ScreenIs(screen: Screen)
    ensures Drawn(screen) ==> ScreenStart(screen) == screen.base / PAGE_SIZE
                              && ScreenPages(screen) == RangePages(screen.base, ScreenBytes(screen))
    ensures !Drawn(screen) ==> ScreenPages(screen) == 0
  {
    hide RangePages, ScreenBytes;
  }

  /** The frame buffer has a page below top entry `a`. */
  ghost predicate ScreenTop(screen: Screen, a: nat) {
    exists v: nat :: ScreenStart(screen) <= v < ScreenStart(screen) + ScreenPages(screen) && PageKey(v).a == a
  }

  /** How many tables the frame buffer may need; below 4 GiB none beside those that are there. */
  function ScreenTables(screen: Screen): nat {
    if ScreenStart(screen) + ScreenPages(screen) <= LOW_PAGES then 0 else 3 * ScreenPages(screen)
  }

  /** The kernel's tables for pages below 4 GiB, in some order. */
  function LowSpot(kernel: nat, i: nat): Spot {
    if i == 0 then Spot(kernel, [])
    else if i == 1 then Spot(kernel, [0])
    else if i < 6 then Spot(kernel, [0, i - 2])
    else Spot(kernel, [0, (i - 6) / 512, (i - 6) % 512])
  }

  ghost function LowSpots(kernel: nat, n: nat): set<Spot> {
    if n == 0 then {} else LowSpots(kernel, n - 1) + {LowSpot(kernel, n - 1)}
  }

  lemma {:induction false} LowSpotsAre(kernel: nat, n: nat)
    ensures |LowSpots(kernel, n)| <= n && forall i: nat | i < n :: LowSpot(kernel, i) in LowSpots(kernel, n)
  {
    hide LowSpot;
    if n > 0 {
      LowSpotsAre(kernel, n - 1);
    }
  }

  lemma LowWay(kernel: nat, t: Spot, v: nat)
    requires OnWay(t, kernel, PageKey(v)) && v < LOW_PAGES
    ensures t in LowSpots(kernel, LOW_TABLES)
  {
    LowSpotsAre(kernel, LOW_TABLES);
    var k := PageKey(v);
    assert k.a == 0 && k.b < 4 && k.c < 512;
    assert LowSpot(kernel, 1) == Spot(kernel, [k.a]);
    assert LowSpot(kernel, 2 + k.b) == Pd(kernel, k);
    var i := 6 + k.b * 512 + k.c;
    assert (i - 6) / 512 == k.b && (i - 6) % 512 == k.c;
    assert LowSpot(kernel, i) == Pt(kernel, k);
    hide LowSpots;
  }

  ghost function Ways(root: nat, p: nat, n: nat): set<Spot> {
    if n == 0 then {}
    else var k := PageKey(p + n - 1);
         Ways(root, p, n - 1) + {Spot(root, [k.a]), Pd(root, k), Pt(root, k)}
  }

  lemma {:induction false} WaysAre(root: nat, p: nat, n: nat)
    ensures |Ways(root, p, n)| <= 3 * n
    ensures forall v: nat, t | p <= v < p + n && OnWay(t, root, PageKey(v)) :: t in Ways(root, p, n)
  {
    hide PageKey, Pd, Pt;
    if n > 0 {
      WaysAre(root, p, n - 1);
    }
  }

  /** The kernel's tables are its root and those its low pages and the frame buffer need. */
  ghost predicate BootTables(at: Places, kernel: nat, screen: Screen) {
    forall t | t in at ::
      || t == Spot(kernel, []) || (exists v: nat :: v < LOW_PAGES && OnWay(t, kernel, PageKey(v)))
      || exists v: nat ::
           ScreenStart(screen) <= v < ScreenStart(screen) + ScreenPages(screen) && OnWay(t, kernel, PageKey(v))
  }

  lemma BootBranched(at0: Places, free0: seq<Range>, at1: Places, free1: seq<Range>, at2: Places, free2: seq<Range>,
                  kernel: nat, screen: Screen)
    requires at0.Keys <= {Spot(kernel, [])} && Branched(at0, free0, at1, free1, kernel, 0, LOW_PAGES)
    requires Branched(at1, free1, at2, free2, kernel, ScreenStart(screen), ScreenPages(screen))
    ensures BootTables(at2, kernel, screen) && Paid(at0, free0, at2, free2)
  {
    PaidTwice(at0, free0, at1, free1, at2, free2);
    hide OnWay, PageKey, Paid, ScreenStart, ScreenPages;
  }

  lemma BootCount(at: Places, kernel: nat, screen: Screen)
    requires BootTables(at, kernel, screen)
    ensures |at| <= LOW_TABLES + ScreenTables(screen)
  {
    var p, n := ScreenStart(screen), ScreenPages(screen);
    var low := p + n <= LOW_PAGES;
    var spots := LowSpots(kernel, LOW_TABLES) + if low then {} else Ways(kernel, p, n);
    LowSpotsAre(kernel, LOW_TABLES);
    WaysAre(kernel, p, n);
    assert LowSpot(kernel, 0) == Spot(kernel, []);
    hide OnWay, PageKey, LowSpots, Ways, ScreenStart, ScreenPages, LowSpot;
    forall t | t in at ensures t in spots {
      if v: nat :| v < LOW_PAGES && OnWay(t, kernel, PageKey(v)) {
        LowWay(kernel, t, v);
      }
      if v: nat :| p <= v < p + n && OnWay(t, kernel, PageKey(v)) {
        if low { LowWay(kernel, t, v); }
      }
    }
    assert at.Keys <= spots;
    FewerIn(at.Keys, spots);
    assert |spots| <= |LowSpots(kernel, LOW_TABLES)| + |if low then {} else Ways(kernel, p, n)|;
  }

  lemma FewerIn<T>(a: set<T>, b: set<T>)
    requires a <= b
    ensures |a| <= |b|
  {
    assert |b| == |a| + |b - a|;
  }

  /** Beyond the first there is a top table exactly where the frame buffer has a page. */
  lemma BootTops(tables: Tables, at: Places, kernel: nat, screen: Screen)
    requires Forest(tables, at, kernel) && BootTables(at, kernel, screen)
    requires HasTables(at, kernel, ScreenStart(screen), ScreenPages(screen))
    ensures forall a: nat | a > 0 :: Spot(kernel, [a]) in at <==> ScreenTop(screen, a)
  {
    hide Forest, ScreenStart, ScreenPages, PageKey, OnWay;
    forall a: nat | a > 0 ensures Spot(kernel, [a]) in at <==> ScreenTop(screen, a) {
      var t := Spot(kernel, [a]);
      assert |t.path| == 1;
      if t in at {
        if v: nat :| v < LOW_PAGES && OnWay(t, kernel, PageKey(v)) {
          TopOnWay(kernel, a, v);
          assert false;
        }
        var v: nat :| ScreenStart(screen) <= v < ScreenStart(screen) + ScreenPages(screen)
          && OnWay(t, kernel, PageKey(v));
        TopOnWay(kernel, a, v);
      }
      if ScreenTop(screen, a) {
        var v: nat :| ScreenStart(screen) <= v < ScreenStart(screen) + ScreenPages(screen) && PageKey(v).a == a;
        assert Pt(kernel, PageKey(v)) in at;
        WayUp(tables, at, kernel, PageKey(v));
      }
    }
  }

  lemma TopOnWay(kernel: nat, a: nat, v: nat)
    requires OnWay(Spot(kernel, [a]), kernel, PageKey(v))
    ensures PageKey(v).a == a && (v < LOW_PAGES ==> a == 0)
  {
    var k := PageKey(v);
    assert |Spot(kernel, [a]).path| == 1 && |Pd(kernel, k).path| == 2 && |Pt(kernel, k).path| == 3;
    assert [a][0] == [k.a][0];
  }

  lemma WayUp(tables: Tables, at: Places, kernel: nat, k: Key)
    requires Forest(tables, at, kernel) && Pt(kernel, k) in at
    ensures Spot(kernel, [k.a]) in at
  {
    Levels(kernel, k);
    UpIn(tables, at, kernel, Pt(kernel, k));
    Paths(kernel, k.a, k.b, 0);
    UpIn(tables, at, kernel, Pd(kernel, k));
    hide Forest;
  }

  /** The process region is the kernel's only if the frame buffer reaches into the half of TiB there. */
  lemma ScreenAtRegion(screen: Screen)
    requires Drawn(screen) ==> 0 < ScreenBytes(screen) && screen.base + ScreenBytes(screen) <= 0x1_0000_0000_0000
    ensures ScreenTop(screen, 1) <==>
            Drawn(screen) && screen.base < 0x100_0000_0000 && screen.base + ScreenBytes(screen) > 0x80_0000_0000
  {
    if Drawn(screen) {
      RangeIs(screen.base, ScreenBytes(screen));
      var p, n := ScreenStart(screen), ScreenPages(screen);
      hide RangePages, ScreenBytes;
      if screen.base < 0x100_0000_0000 && screen.base + ScreenBytes(screen) > 0x80_0000_0000 {
        var v := if p < 0x800_0000 then 0x800_0000 else p;
        TopEdge(v);
        assert p <= v < p + n;
      }
      if v: nat :| p <= v < p + n && PageKey(v).a == 1 { TopEdge(v); }
    }
  }

  lemma TopEdge(v: nat)
    requires v < 0x10_0000_0000
    ensures PageKey(v).a == 1 <==> 0x800_0000 <= v < 0x1000_0000
  {
  }

  /** Sections and a frame buffer of some size, and pages for all the tables there can be. */
  ghost predicate Bootable(i: Image, screen: Screen, free: seq<Range>) {
    && i.textStart < i.textEnd && i.rodataStart < i.rodataEnd
    && (Drawn(screen) ==> RangeFits(screen.base, screen.base, ScreenBytes(screen)))
    && Total(free) > LOW_TABLES + ScreenTables(screen)
  }

  lemma BootableIs(i: Image, screen: Screen, free: seq<Range>)
    ensures Bootable(i, screen, free) ==>
              i.textStart < i.textEnd && i.rodataStart < i.rodataEnd
              && (Drawn(screen) ==> RangeFits(screen.base, screen.base, ScreenBytes(screen)))
              && Total(free) > LOW_TABLES + ScreenTables(screen)
  {
    hide RangeFits, ScreenBytes, Total, ScreenTables;
  }

  /** What `paging_init` took from the free pages. */
  lemma BootPaid(free: seq<Range>, at: Places, free': seq<Range>, m: nat)
    requires Paid(map[], free, at, free') && Canonical(free') && |at| <= m
    ensures Served(free, Ones(|at|)) == Some(free') && (NoPage(free') ==> Total(free) <= m)
  {
    PaidCounts(map[], free, at, free');
    if NoPage(free') { NoPageTotal(free'); }
    hide Served, Ones, Total, NoPage, Canonical;
  }

  // ---------------------------------------------------------- small facts for the code

  lemma ChunkLow(n: nat)
    ensures n * SIZE_2M / PAGE_SIZE == n * 512
    ensures n < 2048 ==> n * SIZE_2M / PAGE_SIZE + 1 <= LOW_PAGES && n * 512 + 1 <= LOW_PAGES
  {
  }

  lemma SectionLow(start: nat, end: nat)
    ensures start <= end <= 0x1_0000_0000 ==>
              start / PAGE_SIZE + RangePages(start, end - start) <= LOW_PAGES
  {
  }

  /** The kernel's own root holds none of the links that other spaces share. */
  lemma NotKernel(tables: Tables, at: Places, kernel: nat, s: Spot, i: nat)
    requires s.root == kernel
    ensures !KernelEntry(tables, at, kernel, s, i)
  {
  }

  lemma LastAbsent(at: Places, at': Places, kernel: nat, k: Key)
    requires NoNewLast(at, at')
    ensures (Pt(kernel, k) !in at ==> Pt(kernel, k) !in at') && Pd(kernel, k) == Spot(kernel, [k.a, k.b])
  {
    Levels(kernel, k);
  }

  lemma PdIs(r: nat, k: Key)
    ensures Pd(r, k) == Spot(r, [k.a, k.b]) && |Pd(r, k).path| == 2 && Pd(r, k).root == r
            && Child(Pd(r, k), k.c) == Pt(r, k)
  {
    Levels(r, k);
  }

  lemma FillTest(tables: Tables, at: Places, kernel: nat, n: nat)
    ensures Filled(tables, at, tables, at, kernel, n, n + 1)
  {
    hide OwnTranslate;
  }

  lemma MultipleOf(n: nat)
    ensures SIZE_2M == 0x20_0000 && n * SIZE_2M % SIZE_2M == 0
  {
  }

  lemma LowLimits()
    ensures LOW_LIMIT == 2048 * SIZE_2M && 1 * SIZE_2M == SIZE_2M
  {
  }

  lemma ChunkFree(at: Places, kernel: nat, n: nat)
    requires NoTablesFrom(at, kernel, 512) && 1 <= n < 0x800_0000
    ensures Pt(kernel, KeyOf(n * SIZE_2M)) !in at
  {
    ChunkKey(n);
    hide Pt, KeyOf;
  }

  lemma ImageChunks(i: Image)
    requires Linked(i)
    ensures SIZE_2M == 0x20_0000 && 1 <= i.start / SIZE_2M <= (i.end + SIZE_2M - 1) / SIZE_2M <= 2048
  {
  }

  lemma SectionFits(i: Image)
    requires Linked(i)
    ensures i.textStart <= i.textEnd <= i.rodataStart <= i.rodataEnd <= i.dataStart <= i.end <= 0x1_0000_0000
    ensures forall a: nat, n: nat | 0 < n && a + n <= 0x1_0000_0000 :: RangeFits(a, a, n)
    ensures forall a: nat :: !RangeFits(a, a, 0)
  {
  }

  /** In the kernel's own space only want of a page stops a mapping. */
  lemma NoKernelStop(tables: Tables, at: Places, free: seq<Range>, kernel: nat)
    ensures forall k :: Stopped(tables, at, free, kernel, kernel, k) ==> NoPage(free)
  {
    hide NoPage;
  }

  lemma DrawnIs(screen: Screen)
    ensures Drawn(screen) <==> screen.Screen? && screen.base != 0
    ensures Words(screen) ==> screen.Screen? ==> screen.base < WORD
    ensures WORD == 0x1_0000_0000_0000_0000
  {
  }

  lemma NothingAdded()
    ensures forall a: nat :: !Added(map[], map[], a)
  {
  }

  /** Everything made on top of the bare root is the kernel's, and was free before. */
  lemma OnlyKernel(t0: Tables, at0: Places, free0: seq<Range>, t1: Tables, at1: Places, free1: seq<Range>,
                   lost: seq<Range>,
                   kernel: nat, free: seq<Range>)
    requires t0 == map[kernel := EmptyTable] && at0 == map[Spot(kernel, []) := kernel]
    requires Extends(t0, at0, free0, lost, t1, at1, free1, lost, kernel)
    requires forall a: nat :: Returned(free, lost, a) <==> Returned(free0, lost, a) || InPage(kernel, a)
    ensures Spot(kernel, []) in at1 && forall s | s in at1 :: s.root == kernel
    ensures forall a: nat :: Returned(free, lost, a) <==> Returned(free1, lost, a) || Added(map[], t1, a)
  {
    hide TopKept, Returned, InPage;
    forall a: nat ensures Added(map[], t1, a) <==> InPage(kernel, a) || Added(t0, t1, a) {
      AddedTwice(map[], t0, t1, a);
      if InPage(kernel, a) { assert kernel in t0; }
    }
  }
}
