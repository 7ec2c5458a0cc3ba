/** The pages a process holds beside its tables: blocks taken, kept apart and given back. */
module ProcessPages {
  import opened PageRanges
  import opened PageTables
  import opened PagingFacts

  /** Address `a` lies in one of the blocks. */
  ghost predicate Blocked(bs: set<Range>, a: nat) {
    exists b :: b in bs && InRange(b, a)
  }

  ghost predicate Tabled(tables: Tables, a: nat) {
    exists f :: f in tables && InPage(f, a)
  }

  /** Whole blocks, none of them at 0, apart from each other, from the tables and from every page
      that was handed back. */
  ghost predicate Held(tables: Tables, free: seq<Range>, lost: seq<Range>, bs: set<Range>) {
    && (forall b | b in bs :: Proper(b) && b.base > 0)
    && (forall b, c, a: nat | b in bs && c in bs && b != c && InRange(b, a) :: !InRange(c, a))
    && forall a: nat | Blocked(bs, a) :: !Returned(free, lost, a) && !Tabled(tables, a)
  }

  lemma HeldNone(tables: Tables, free: seq<Range>, lost: seq<Range>)
    ensures Held(tables, free, lost, {}) && forall a: nat :: !Blocked({}, a)
  {
  }

  lemma BlockedMore(bs: set<Range>, b: Range, a: nat)
    ensures Blocked(bs + {b}, a) <==> Blocked(bs, a) || InRange(b, a)
  {
    hide InRange;
    assert b in bs + {b};
    if Blocked(bs, a) {
      var c :| c in bs && InRange(c, a);
      assert c in bs + {b};
    }
  }

  lemma TablesUsed(tables: Tables, free: seq<Range>, lost: seq<Range>)
    requires Clean(tables, free, lost)
    ensures forall a: nat | Tabled(tables, a) :: !Returned(free, lost, a)
  {
    hide Returned;
    forall a: nat | Tabled(tables, a) ensures !Returned(free, lost, a) {
      var f :| f in tables && InPage(f, a);
      assert InUse(free, lost, f);
    }
  }

  lemma TabledMore(t: Tables, t': Tables, a: nat)
    ensures Tabled(t', a) ==> Tabled(t, a) || Added(t, t', a)
  {
  }

  /** A free run becomes a block. */
  lemma TakeBlock(tables: Tables, free: seq<Range>, free': seq<Range>, lost: seq<Range>, bs: set<Range>, base: nat,
                  n: nat)
    requires Clean(tables, free, lost) && Held(tables, free, lost, bs) && n > 0 && FreeRun(free, base, n)
    requires forall a: nat :: Holds(free', a) <==> Holds(free, a) && !Within(base, base + n * PAGE_SIZE, a)
    ensures base > 0 && Range(base, n) !in bs
    ensures Clean(tables, free', lost) && Held(tables, free', lost, bs + {Range(base, n)})
    ensures forall a: nat :: Returned(free, lost, a) <==> Returned(free', lost, a) || InRange(Range(base, n), a)
  {
    var b := Range(base, n);
    assert forall a: nat :: InRange(b, a) <==> Within(base, base + n * PAGE_SIZE, a);
    assert forall a: nat | InRange(b, a) :: Holds(free, a);
    assert InRange(b, base);
    hide Holds;
    assert b in bs ==> Blocked(bs, base);
    TakenTables(tables, free, free', lost, b);
    TablesUsed(tables, free, lost);
    forall a: nat | Blocked(bs + {b}, a) ensures !Returned(free', lost, a) && !Tabled(tables, a) {
      BlockedMore(bs, b, a);
    }
    TakenApart(free, lost, tables, bs, b);
  }

  lemma TakenApart(free: seq<Range>, lost: seq<Range>, tables: Tables, bs: set<Range>, b: Range)
    requires Held(tables, free, lost, bs) && forall a: nat | InRange(b, a) :: Holds(free, a)
    ensures forall c, d, a: nat | c in bs + {b} && d in bs + {b} && c != d && InRange(c, a) :: !InRange(d, a)
  {
    hide Holds, InRange;
    forall c, d, a: nat | c in bs + {b} && d in bs + {b} && c != d && InRange(c, a) ensures !InRange(d, a) {
      assert c in bs ==> Blocked(bs, a);
      assert d in bs && InRange(d, a) ==> Blocked(bs, a);
    }
  }

  lemma TakenTables(tables: Tables, free: seq<Range>, free': seq<Range>, lost: seq<Range>, b: Range)
    requires Clean(tables, free, lost)
    requires forall a: nat :: Holds(free', a) <==> Holds(free, a) && !InRange(b, a)
    ensures Clean(tables, free', lost)
  {
    hide Holds;
    forall f | f in tables ensures InUse(free', lost, f) {
      assert InUse(free, lost, f);
    }
  }

  /** New tables come from free pages, so they stay off the blocks. */
  lemma HeldExtends(t: Tables, at: Places, free: seq<Range>, lost: seq<Range>, t': Tables, at': Places,
                    free': seq<Range>, lost': seq<Range>,
                    root: nat, bs: set<Range>)
    requires Held(t, free, lost, bs) && Extends(t, at, free, lost, t', at', free', lost', root)
    ensures Held(t', free', lost', bs)
  {
    hide TopKept, Returned, InPage, InRange;
    forall a: nat | Blocked(bs, a) ensures !Returned(free', lost', a) && !Tabled(t', a) {
      TabledMore(t, t', a);
    }
  }

  lemma HeldCreates(t: Tables, free: seq<Range>, t': Tables, free': seq<Range>, lost: seq<Range>, root: nat,
                    bs: set<Range>)
    requires Held(t, free, lost, bs) && t'.Keys == t.Keys + {root}
    requires forall a: nat :: Returned(free, lost, a) <==> Returned(free', lost, a) || InPage(root, a)
    ensures Held(t', free', lost, bs)
  {
    hide Returned, InPage, InRange;
  }

  /** A block of ours may be given back. */
  lemma BlockIsClear(tables: Tables, free: seq<Range>, lost: seq<Range>, bs: set<Range>, b: Range)
    requires Held(tables, free, lost, bs) && b in bs
    ensures b.base > 0 && b.pages > 0 && b.base % PAGE_SIZE == 0 && ClearOf(free, b.base, b.base + b.pages * PAGE_SIZE)
  {
    hide Holds;
    assert Proper(b);
    forall a: nat | Within(b.base, b.base + b.pages * PAGE_SIZE, a) ensures !Holds(free, a) {
      assert InRange(b, a);
      assert Blocked(bs, a);
    }
  }

  lemma GiveBlock(tables: Tables, free: seq<Range>, lost: seq<Range>, free': seq<Range>, lost': seq<Range>,
                  bs: set<Range>, b: Range)
    requires Clean(tables, free, lost) && Held(tables, free, lost, bs) && b in bs
    requires if |free| >= MAX_RANGES then free' == free && lost' == lost + [b]
             else lost' == lost && forall a: nat :: Holds(free', a) <==>
               Holds(free, a) || Within(b.base, b.base + b.pages * PAGE_SIZE, a)
    ensures Clean(tables, free', lost') && Held(tables, free', lost', bs - {b}) && lost <= lost'
    ensures forall a: nat :: Returned(free', lost', a) <==> Returned(free, lost, a) || InRange(b, a)
  {
    assert Proper(b) && b.base > 0;
    assert forall a: nat :: InRange(b, a) <==> Within(b.base, b.base + b.pages * PAGE_SIZE, a);
    hide Holds;
    forall a: nat ensures Holds(lost + [b], a) <==> Holds(lost, a) || InRange(b, a) {
      HoldsConcat(lost, [b], a);
      HoldsOne(b, a);
    }
    assert forall a: nat | InRange(b, a) :: Blocked(bs, a);
    assert !InRange(b, 0);
    forall a: nat | Holds(lost', a) ensures !Holds(free', a) {
      assert InRange(b, a) ==> Blocked(bs, a);
      assert Holds(lost, a) ==> Returned(free, lost, a);
      assert Holds(free, a) ==> Returned(free, lost, a);
    }
    GivenTables(tables, free, lost, free', lost', bs, b);
    GivenApart(tables, free, lost, free', lost', bs, b);
  }

  lemma GivenTables(tables: Tables, free: seq<Range>, lost: seq<Range>, free': seq<Range>, lost': seq<Range>,
                    bs: set<Range>, b: Range)
    requires Clean(tables, free, lost) && Held(tables, free, lost, bs) && b in bs
    requires forall a: nat :: Returned(free', lost', a) <==> Returned(free, lost, a) || InRange(b, a)
    ensures forall f | f in tables :: InUse(free', lost', f)
  {
    hide Returned, InRange;
    forall f | f in tables ensures InUse(free', lost', f) {
      assert InUse(free, lost, f);
      forall a: nat | InPage(f, a) ensures !Returned(free', lost', a) {
        assert Tabled(tables, a);
        assert InRange(b, a) ==> Blocked(bs, a);
      }
    }
  }

  lemma GivenApart(tables: Tables, free: seq<Range>, lost: seq<Range>, free': seq<Range>, lost': seq<Range>,
                   bs: set<Range>, b: Range)
    requires Held(tables, free, lost, bs) && b in bs
    requires forall a: nat :: Returned(free', lost', a) <==> Returned(free, lost, a) || InRange(b, a)
    ensures Held(tables, free', lost', bs - {b})
  {
    hide Returned, InRange, Tabled;
    forall a: nat | Blocked(bs - {b}, a) ensures !Returned(free', lost', a) && !Tabled(tables, a) {
      var c :| c in bs - {b} && InRange(c, a);
      assert Blocked(bs, a);
    }
  }

  /** Tables given back stay off the blocks. */
  lemma HeldShrinks(t: Tables, free: seq<Range>, lost: seq<Range>, t': Tables, free': seq<Range>, lost': seq<Range>,
                    bs: set<Range>)
    requires Held(t, free, lost, bs) && t'.Keys <= t.Keys
    requires forall a: nat :: Returned(free', lost', a) ==> Returned(free, lost, a) || Tabled(t, a)
    ensures Held(t', free', lost', bs)
  {
    hide Returned, InPage, InRange;
  }

  // ------------------------------------------------------------- a space of its own

  /** Beside what there was, there is the space `root` and nothing else. */
  ghost predicate SpaceOf(t0: Tables, at0: Places, t: Tables, at: Places, kernel: nat, root: nat) {
    && CanOpen(t0, at0, kernel, root) && Spot(root, []) in at
    && (forall s | s in at0 :: s in at && at[s] == at0[s])
    && (forall s | s in at && s !in at0 :: s.root == root)
    && forall s | s in at0 && at0[s] in t0 :: at0[s] in t && t[at0[s]] == t0[at0[s]]
  }

  lemma SpaceOpened(t0: Tables, at0: Places, kernel: nat, root: nat)
    requires CanOpen(t0, at0, kernel, root) && kernel in t0
    ensures SpaceOf(t0, at0, t0[root := t0[kernel]], at0[Spot(root, []) := root], kernel, root)
    ensures forall a: nat :: Added(t0, t0[root := t0[kernel]], a) <==> InPage(root, a)
  {
    hide Forest, InPage;
    var t := t0[root := t0[kernel]];
    forall a: nat | InPage(root, a) ensures Added(t0, t, a) {
      assert root in t && root !in t0;
    }
  }

  lemma NoRoot(o: Before, root: nat)
    requires CanOpen(o.tables, o.at, o.kernel, root)
    ensures Spot(root, []) !in o.at
  {
    hide Forest;
  }

  lemma SpaceGrows(t0: Tables, at0: Places, t: Tables, at: Places, free: seq<Range>, t': Tables, at': Places,
                   free': seq<Range>, lost: seq<Range>,
                   kernel: nat, root: nat)
    requires SpaceOf(t0, at0, t, at, kernel, root) && Extends(t, at, free, lost, t', at', free', lost, root)
    requires forall f | f in t0 :: f in t
    ensures SpaceOf(t0, at0, t', at', kernel, root) && forall f | f in t0 :: f in t'
    ensures forall a: nat :: Added(t0, t', a) <==> Added(t0, t, a) || Added(t, t', a)
  {
    hide Forest, TopKept, Returned;
    forall s | s in at0 ensures s.root != root {
    }
    forall a: nat ensures Added(t0, t', a) <==> Added(t0, t, a) || Added(t, t', a) {
      AddedTwice(t0, t, t', a);
    }
    hide Added;
  }

  /** Taking away all the space owns leaves exactly what there was. */
  lemma SpaceCloses(t0: Tables, at0: Places, t: Tables, at: Places, kernel: nat, root: nat)
    requires SpaceOf(t0, at0, t, at, kernel, root) && Forest(t, at, kernel)
    ensures t - Owned(at, root) == t0 && Others(at, root) == at0
    ensures forall a: nat :: OwnedAt(at, root, a) <==> Added(t0, t, a)
  {
    ClosedPlaces(t0, at0, t, at, kernel, root);
    ClosedTables(t0, at0, t, at, kernel, root);
    hide Forest, InPage, SpaceOf;
    forall a: nat ensures OwnedAt(at, root, a) <==> Added(t0, t, a) {
      if OwnedAt(at, root, a) {
        var u :| u in at && u.root == root && InPage(at[u], a);
        assert at[u] in Owned(at, root) && at[u] in t;
      }
      if Added(t0, t, a) {
        var f :| f in t && f !in t0 && InPage(f, a);
        assert f in Owned(at, root);
      }
    }
  }

  lemma ClosedPlaces(t0: Tables, at0: Places, t: Tables, at: Places, kernel: nat, root: nat)
    requires SpaceOf(t0, at0, t, at, kernel, root)
    ensures Others(at, root) == at0
  {
    hide Forest;
    assert forall s | s in at0 :: s.root != root;
  }

  lemma ClosedTables(t0: Tables, at0: Places, t: Tables, at: Places, kernel: nat, root: nat)
    requires SpaceOf(t0, at0, t, at, kernel, root) && Forest(t, at, kernel)
    ensures t - Owned(at, root) == t0 && (forall u | u in at :: at[u] in t) && forall u | u in at && u.root == root ::
            at[u] !in t0
  {
    forall u | u in at ensures at[u] in t {
      SpotTable(t, at, kernel, u);
    }
    assert OnePlace(t, at) && OnePlace(t0, at0);
    hide Forest, AllSpots, AllEntries;
    forall f | f in t0 ensures f in t && f !in Owned(at, root) && t[f] == t0[f] {
      var s :| s in at0 && at0[s] == f;
      assert s in at && at[s] == f && s.root != root;
    }
    forall f | f in t && f !in Owned(at, root) ensures f in t0 {
      var s :| s in at && at[s] == f;
      assert s in at0 && at0[s] == f;
      TableOf(t0, at0, kernel, root, s);
    }
  }

  lemma TableOf(t0: Tables, at0: Places, kernel: nat, root: nat, s: Spot)
    requires CanOpen(t0, at0, kernel, root) && s in at0
    ensures at0[s] in t0
  {
    SpotTable(t0, at0, kernel, s);
  }

  // ------------------------------------------------------------------ the ledger

  /** The machine as a process found it. */
  datatype Before = Before(tables: Tables, at: Places, kernel: nat, free: seq<Range>, lost: seq<Range>)

  /** Every page that was free before is free or lost now, in one of the process's blocks, or one of
      its tables; and nothing else has changed. */
  ghost predicate Ledger(o: Before, t: Tables, at: Places, free: seq<Range>, lost: seq<Range>, root: nat,
                         bs: set<Range>) {
    && Forest(o.tables, o.at, o.kernel) && Forest(t, at, o.kernel) && Clean(t, free, lost) && Held(t, free, lost, bs)
    && o.lost <= lost
    && (forall a: nat :: Returned(o.free, o.lost, a) <==>
        Returned(free, lost, a) || Blocked(bs, a)
        || Added(o.tables, t, a))
    && (forall f | f in o.tables :: f in t)
    && (if root == 0 then t == o.tables && at == o.at else SpaceOf(o.tables, o.at, t, at, o.kernel, root))
  }

  lemma LedgerStart(o: Before)
    requires Forest(o.tables, o.at, o.kernel) && Clean(o.tables, o.free, o.lost)
    ensures Ledger(o, o.tables, o.at, o.free, o.lost, 0, {})
  {
    HeldNone(o.tables, o.free, o.lost);
    hide Forest, Clean, Returned;
    forall a: nat ensures !Added(o.tables, o.tables, a) {
    }
  }

  lemma LedgerTake(o: Before, t: Tables, at: Places, free: seq<Range>, lost: seq<Range>, root: nat, bs: set<Range>,
                   free': seq<Range>, base: nat, n: nat)
    requires Ledger(o, t, at, free, lost, root, bs) && n > 0 && FreeRun(free, base, n)
    requires forall a: nat :: Holds(free', a) <==> Holds(free, a) && !Within(base, base + n * PAGE_SIZE, a)
    ensures base > 0 && Range(base, n) !in bs && Ledger(o, t, at, free', lost, root, bs + {Range(base, n)})
    ensures forall a: nat | InRange(Range(base, n), a) :: Returned(o.free, o.lost, a)
  {
    TakeBlock(t, free, free', lost, bs, base, n);
    hide Forest, Clean, Held, Returned, Holds, InRange, SpaceOf, Within, FreeRun, Added;
    forall a: nat ensures Blocked(bs + {Range(base, n)}, a) <==> Blocked(bs, a) || InRange(Range(base, n), a) {
      BlockedMore(bs, Range(base, n), a);
    }
    hide Blocked;
  }

  lemma LedgerGive(o: Before, t: Tables, at: Places, free: seq<Range>, lost: seq<Range>, root: nat, bs: set<Range>,
                   free': seq<Range>, lost': seq<Range>, b: Range)
    requires Ledger(o, t, at, free, lost, root, bs) && b in bs
    requires if |free| >= MAX_RANGES then free' == free && lost' == lost + [b]
             else lost' == lost && forall a: nat :: Holds(free', a) <==>
               Holds(free, a) || Within(b.base, b.base + b.pages * PAGE_SIZE, a)
    ensures Ledger(o, t, at, free', lost', root, bs - {b}) && lost <= lost'
  {
    GiveBlock(t, free, lost, free', lost', bs, b);
    hide Forest, Clean, Held, Returned, Holds, InRange, SpaceOf, Within, Added;
    forall a: nat ensures Blocked(bs, a) <==> Blocked(bs - {b}, a) || InRange(b, a) {
      BlockedMore(bs - {b}, b, a);
      assert bs - {b} + {b} == bs;
    }
    hide Blocked;
  }

  lemma LedgerOpen(o: Before, free: seq<Range>, lost: seq<Range>, bs: set<Range>, free': seq<Range>, root: nat)
    requires Ledger(o, o.tables, o.at, free, lost, 0, bs) && CanOpen(o.tables, o.at, o.kernel, root)
             && o.kernel in o.tables && root > 0
    requires var t, at := o.tables[root := o.tables[o.kernel]], o.at[Spot(root, []) := root];
             Forest(t, at, o.kernel) && Clean(t, free', lost)
    requires forall a: nat :: Returned(free, lost, a) <==> Returned(free', lost, a) || InPage(root, a)
    ensures Ledger(o, o.tables[root := o.tables[o.kernel]], o.at[Spot(root, []) := root], free', lost, root, bs)
  {
    var t, at := o.tables[root := o.tables[o.kernel]], o.at[Spot(root, []) := root];
    SpaceOpened(o.tables, o.at, o.kernel, root);
    HeldCreates(o.tables, free, t, free', lost, root, bs);
    hide Forest, Clean, Held, Returned, InPage, SpaceOf, Blocked;
    forall a: nat ensures !Added(o.tables, o.tables, a) {
    }
    hide Added;
  }

  lemma LedgerExtends(o: Before, t: Tables, at: Places, free: seq<Range>, lost: seq<Range>, root: nat, bs: set<Range>,
                      t': Tables, at': Places, free': seq<Range>)
    requires Ledger(o, t, at, free, lost, root, bs) && root > 0
    requires Forest(t', at', o.kernel) && Clean(t', free', lost)
             && Extends(t, at, free, lost, t', at', free', lost, root)
    ensures Ledger(o, t', at', free', lost, root, bs)
  {
    hide Forest, Clean, Held, Returned, SpaceOf, Blocked, Added, TopKept;
    HeldExtends(t, at, free, lost, t', at', free', lost, root, bs);
    SpaceGrows(o.tables, o.at, t, at, free, t', at', free', lost, o.kernel, root);
  }

  lemma LedgerClose(o: Before, t: Tables, at: Places, free: seq<Range>, lost: seq<Range>, root: nat, bs: set<Range>,
                    free': seq<Range>, lost': seq<Range>)
    requires Ledger(o, t, at, free, lost, root, bs) && root > 0 && lost <= lost'
    requires Clean(t - Owned(at, root), free', lost')
    requires forall a: nat :: Returned(free', lost', a) <==> Returned(free, lost, a) || OwnedAt(at, root, a)
    ensures t - Owned(at, root) == o.tables && Others(at, root) == o.at
            && Ledger(o, o.tables, o.at, free', lost', 0, bs)
  {
    SpaceCloses(o.tables, o.at, t, at, o.kernel, root);
    forall a: nat | Added(o.tables, t, a) ensures Tabled(t, a) {
    }
    hide Forest, Clean, Returned, SpaceOf, Blocked, OwnedAt, Tabled, Owned, Others, Held;
    HeldShrinks(t, free, lost, o.tables, free', lost', bs);
    assert forall a: nat :: !Added(o.tables, o.tables, a);
    hide Added;
  }

  lemma LedgerSpace(o: Before, t: Tables, at: Places, free: seq<Range>, lost: seq<Range>, root: nat, bs: set<Range>)
    requires Ledger(o, t, at, free, lost, root, bs)
    ensures root != 0 ==> Spot(root, []) in at && root != o.kernel && Spot(root, []) !in o.at
    ensures root == 0 ==> t == o.tables && at == o.at
    ensures forall s | s in o.at :: s in at && at[s] == o.at[s]
    ensures o.lost <= lost
    ensures Forest(t, at, o.kernel) && Clean(t, free, lost)
  {
    hide Forest, Clean, Held, Returned, Blocked, Added;
  }

  /** Once blocks and space are gone the same pages are free as before, but for those the allocator
      lost; and if it lost none, its array is the very same. */
  lemma LedgerEnd(o: Before, t: Tables, at: Places, free: seq<Range>, lost: seq<Range>)
    requires Ledger(o, t, at, free, lost, 0, {}) && Canonical(o.free) && Canonical(free)
             && Clean(o.tables, o.free, o.lost)
    ensures t == o.tables && at == o.at && o.lost <= lost
    ensures forall a: nat :: Returned(free, lost, a) <==> Returned(o.free, o.lost, a)
    ensures lost == o.lost ==> free == o.free
  {
    HeldNone(t, free, lost);
    hide Forest, Canonical, Holds, Held, Blocked;
    assert forall a: nat :: !Added(t, t, a);
    if lost == o.lost {
      hide Added;
      forall a: nat ensures Holds(free, a) <==> Holds(o.free, a) {
        assert Returned(free, lost, a) <==> Returned(o.free, o.lost, a);
      }
      CanonicalUnique(free, o.free);
    }
  }

  /** No free page lies beyond the physical memory the allocator was given. */
  ghost predicate LowMemory(o: Before) {
    forall a: nat | Returned(o.free, o.lost, a) :: a < MAX_PHYS
  }

  lemma BlockIsLow(o: Before, base: nat, n: nat)
    requires LowMemory(o) && n > 0 && forall a: nat | InRange(Range(base, n), a) :: Returned(o.free, o.lost, a)
    ensures base < MAX_PHYS
  {
    assert InRange(Range(base, n), base);
  }
}
