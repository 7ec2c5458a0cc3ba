/** What setting up a process needs: four requests for pages served in turn, three pages for tables,
    and a process region the kernel has no tables for. */
module ProcessNeeds {
  import opened PageRanges
  import opened PageFrames
  import opened PageTables
  import opened PagingFacts
  import opened BootMaps
  import opened ProcessPages

  const TABLES := 3
  const REGION := 0x800_0000        // the first page of the process region
  const REGION_END := 0x800_0100    // the page behind its last

  // ---------------------------------------------------------------- requests

  /** The requests are met with pages left for the tables, and the kernel leaves the top entry of
      the process region alone. */
  ghost predicate Provides(o: Before, free: seq<Range>, ns: seq<nat>) {
    && Spot(o.kernel, [1]) !in o.at
    && Served(free, ns).Some? && Total(Served(free, ns).value) >= TABLES
  }

  lemma ProvidesNext(o: Before, free: seq<Range>, n: nat, ns: seq<nat>)
    ensures Provides(o, free, [n] + ns) <==> FirstFit(free, n) < |free| && Provides(o, Taken(free, n), ns)
  {
    assert ([n] + ns)[1..] == ns;
    hide Taken, FirstFit, Total;
  }

  lemma ProvidesThree(o: Before, free: seq<Range>, n: nat, m: nat)
    ensures Provides(o, free, [1, n, m]) <==>
            FirstFit(free, 1) < |free|
            && var free1 := Taken(free, 1);
               FirstFit(free1, n) < |free1|
               && var free2 := Taken(free1, n);
                  FirstFit(free2, m) < |free2| && Provides(o, Taken(free2, m), [])
  {
    hide Provides, Taken, FirstFit;
    assert [1] + [n, m] == [1, n, m] && [n] + [m] == [n, m] && [m] + [] == [m];
    ProvidesNext(o, free, 1, [n, m]);
    if FirstFit(free, 1) < |free| {
      var free1 := Taken(free, 1);
      ProvidesNext(o, free1, n, [m]);
      if FirstFit(free1, n) < |free1| { ProvidesNext(o, Taken(free1, n), m, []); }
    }
  }

  lemma ProvidesLast(o: Before, free: seq<Range>)
    ensures Provides(o, free, []) <==> Spot(o.kernel, [1]) !in o.at && Total(free) >= TABLES
  {
  }

  /** Some range has at least `m` pages. */
  predicate LongRun(free: seq<Range>, m: nat) {
    exists i: nat :: i < |free| && free[i].pages >= m
  }

  lemma SumFour(a: nat, b: nat, c: nat, d: nat)
    ensures Sum([a, b, c, d]) == a + b + c + d
  {
    assert [a, b, c, d][1..] == [b, c, d] && [b, c, d][1..] == [c, d] && [c, d][1..] == [d] && [d][1..] == [];
    assert Sum([d]) == d && Sum([c, d]) == c + d;
  }

  /** One range as long as all of them together serves every request, whatever else is taken first. */
  lemma {:induction false} LongRunServes(o: Before, free: seq<Range>, ns: seq<nat>)
    requires Spot(o.kernel, [1]) !in o.at && LongRun(free, Sum(ns) + TABLES)
    ensures Provides(o, free, ns)
    decreases |ns|
  {
    hide Taken, FirstFit, Total, LongRun;
    if ns == [] {
      LongTotal(free, TABLES);
      ProvidesLast(o, free);
    } else {
      LongTaken(free, ns[0], Sum(ns[1..]) + TABLES);
      LongRunServes(o, Taken(free, ns[0]), ns[1..]);
      assert ns == [ns[0]] + ns[1..];
      ProvidesNext(o, free, ns[0], ns[1..]);
    }
  }

  lemma {:induction false} LongTotal(free: seq<Range>, m: nat)
    requires LongRun(free, m)
    ensures Total(free) >= m
  {
    var i: nat :| i < |free| && free[i].pages >= m;
    var front := free[..|free| - 1];
    if i < |front| {
      assert front[i] == free[i];
      LongTotal(front, m);
    }
  }

  lemma LongTaken(free: seq<Range>, n: nat, m: nat)
    requires LongRun(free, n + m) && m > 0
    ensures FirstFit(free, n) < |free| && LongRun(Taken(free, n), m)
  {
    var i: nat :| i < |free| && free[i].pages >= n + m;
    var f, rs := FirstFit(free, n), Taken(free, n);
    if i < f || free[f].pages != n {
      assert i < |rs| && rs[i].pages >= m;
    } else {
      assert rs[i - 1] == free[i];
    }
  }

  // ---------------------------------------------------------- taken and given back

  /** From the pages of the start the requests `took` were met in turn, and then the blocks `given`
      were handed back. */
  ghost predicate Flows(o: Before, took: seq<nat>, given: seq<Range>, free: seq<Range>, lost: seq<Range>) {
    Served(o.free, took).Some? && Given(Served(o.free, took).value, o.lost, given, free, lost)
  }

  lemma FlowsStart(o: Before)
    ensures Flows(o, [], [], o.free, o.lost)
  {
  }

  lemma FlowsTake(o: Before, took: seq<nat>, free: seq<Range>, lost: seq<Range>, n: nat, free': seq<Range>)
    requires Flows(o, took, [], free, lost) && FirstFit(free, n) < |free| && free' == Taken(free, n)
    ensures Flows(o, took + [n], [], free', lost)
  {
    hide Served, Taken, FirstFit;
    ServedConcat(o.free, took, [n]);
    ServedOne(free, n);
  }

  /** Tables took their pages, each the first free one. */
  lemma FlowsPaid(o: Before, took: seq<nat>, at: Places, free: seq<Range>, lost: seq<Range>, at': Places,
                  free': seq<Range>)
    requires Flows(o, took, [], free, lost) && Paid(at, free, at', free')
    ensures Flows(o, took + Ones(|at'| - |at|), [], free', lost)
  {
    hide Served, Ones;
    ServedConcat(o.free, took, Ones(|at'| - |at|));
  }

  lemma FlowsGive(o: Before, took: seq<nat>, given: seq<Range>, free: seq<Range>, lost: seq<Range>, more: seq<Range>,
                  free': seq<Range>, lost': seq<Range>)
    requires Flows(o, took, given, free, lost) && Given(free, lost, more, free', lost')
    ensures Flows(o, took, given + more, free', lost')
  {
    hide Served, Given;
    GivenMore(Served(o.free, took).value, o.lost, given, free, lost, more, free', lost');
  }

  /** With a range to spare for every block given back, no page is lost. */
  lemma FlowsKeeps(o: Before, took: seq<nat>, given: seq<Range>, free: seq<Range>, lost: seq<Range>)
    requires Flows(o, took, given, free, lost) && |o.free| + |given| <= MAX_RANGES
    ensures lost == o.lost
  {
    hide Served, Given;
    ServedShrinks(o.free, took);
    GivenKeeps(Served(o.free, took).value, o.lost, given, free, lost);
  }

  // ------------------------------------------------------------ the three tables

  /** All pages of the region hang below the same three tables. */
  lemma RegionKey(v: nat)
    requires REGION <= v < REGION_END
    ensures PageKey(v).a == 1 && PageKey(v).b == 0 && PageKey(v).c == 0
  {
  }

  predicate RegionSpot(s: Spot, root: nat) {
    s == Spot(root, [1]) || s == Spot(root, [1, 0]) || s == Spot(root, [1, 0, 0])
  }

  lemma RegionWay(s: Spot, root: nat, v: nat)
    requires REGION <= v < REGION_END && OnWay(s, root, PageKey(v))
    ensures RegionSpot(s, root)
  {
    RegionKey(v);
  }

  lemma RegionPt(root: nat, v: nat)
    requires REGION <= v < REGION_END
    ensures Pt(root, PageKey(v)) == Spot(root, [1, 0, 0]) && PageKey(v).a == 1
  {
    RegionKey(v);
  }

  lemma RegionNew(at: Places, at': Places, root: nat, p: nat, n: nat)
    requires NewFor(at, at', root, p, n) && REGION <= p && p + n <= REGION_END
    ensures forall s | s in at' && s !in at :: RegionSpot(s, root)
  {
    hide OnWay, PageKey, RegionSpot;
    forall s | s in at' && s !in at ensures RegionSpot(s, root) {
      var v: nat :| p <= v < p + n && OnWay(s, root, PageKey(v));
      RegionWay(s, root, v);
    }
  }

  /** How many tables are new: all three, or at most two while the last one is missing. */
  lemma RegionCount(at: Places, at': Places, root: nat)
    requires (forall s | s in at :: s in at') && (forall s | s in at' && s !in at :: RegionSpot(s, root))
    requires Spot(root, [1]) !in at && Spot(root, [1, 0]) !in at && Spot(root, [1, 0, 0]) !in at
    requires Spot(root, [1, 0, 0]) in at' ==> Spot(root, [1, 0]) in at'
    requires Spot(root, [1, 0]) in at' ==> Spot(root, [1]) in at'
    ensures if Spot(root, [1, 0, 0]) in at' then |at'| == |at| + 3 else |at'| <= |at| + 2
  {
    var a, b, c := Spot(root, [1]), Spot(root, [1, 0]), Spot(root, [1, 0, 0]);
    assert |a.path| == 1 && |b.path| == 2 && |c.path| == 3;
    CountThree(at.Keys, at'.Keys, a, b, c);
  }

  lemma CountThree<T>(before: set<T>, after: set<T>, a: T, b: T, c: T)
    requires before <= after && after <= before + {a, b, c} && a !in before && b !in before && c !in before
    requires a != b && b != c && a != c && (c in after ==> b in after) && (b in after ==> a in after)
    ensures if c in after then |after| == |before| + 3 else |after| <= |before| + 2
  {
    if c in after {
      assert after == before + {a, b, c};
      assert |before + {a, b, c}| == |before| + |{a, b, c}|;
    } else {
      assert after <= before + {a, b};
      assert |before + {a, b}| == |before| + |{a, b}|;
      Subset(after, before + {a, b});
    }
  }

  lemma Subset<T>(a: set<T>, b: set<T>)
    requires a <= b
    ensures |a| <= |b|
  {
    assert |b| == |a| + |b - a|;
  }

  lemma RegionUp(t: Tables, at: Places, kernel: nat, root: nat)
    requires Forest(t, at, kernel)
    ensures Spot(root, [1, 0, 0]) in at ==> Spot(root, [1, 0]) in at
    ensures Spot(root, [1, 0]) in at ==> Spot(root, [1]) in at
  {
    Paths(root, 1, 0, 0);
    UpIn(t, at, kernel, Spot(root, [1, 0, 0]));
    UpIn(t, at, kernel, Spot(root, [1, 0]));
  }

  /** A space just made has its root and nothing else of its own. */
  ghost predicate Bare(o: Before, t: Tables, at: Places, root: nat) {
    && CanOpen(o.tables, o.at, o.kernel, root) && o.kernel in o.tables
    && t == o.tables[root := o.tables[o.kernel]] && at == o.at[Spot(root, []) := root]
  }

  lemma BareIs(o: Before, root: nat)
    requires CanOpen(o.tables, o.at, o.kernel, root) && o.kernel in o.tables
    ensures Bare(o, o.tables[root := o.tables[o.kernel]], o.at[Spot(root, []) := root], root)
  {
    hide CanOpen;
  }

  lemma BareFacts(o: Before, t: Tables, at: Places, root: nat)
    requires Bare(o, t, at, root)
    ensures Spot(root, []) in at && root != o.kernel && Spot(o.kernel, []) in o.at
    ensures Spot(root, [1]) !in at && Spot(root, [1, 0]) !in at && Spot(root, [1, 0, 0]) !in at
    ensures Spot(o.kernel, [1]) in at <==> Spot(o.kernel, [1]) in o.at
  {
    hide AllEntries, AllSpots, OnePlace;
    assert Spot(o.kernel, [1]).root != root;
  }

  /** If the kernel has tables there, the new space can never have its own. */
  lemma BareCovered(o: Before, t0: Tables, at0: Places, free0: seq<Range>, t1: Tables, at1: Places, free1: seq<Range>,
                    lost: seq<Range>, root: nat)
    requires Bare(o, t0, at0, root) && Spot(o.kernel, [1]) in o.at
    requires Forest(t0, at0, o.kernel) && Forest(t1, at1, o.kernel)
             && Extends(t0, at0, free0, lost, t1, at1, free1, lost, root)
    ensures Spot(root, [1, 0, 0]) !in at1
  {
    BareFacts(o, t0, at0, root);
    BareTop(o, t0, at0, root);
    hide *;
    TopStays(t0, at0, free0, t1, at1, free1, lost, o.kernel, root, root, 1);
    TopNotOwn(t1, at1, o.kernel, root);
    RegionUp(t1, at1, o.kernel, root);
  }

  lemma TopNotOwn(t: Tables, at: Places, kernel: nat, root: nat)
    ensures TopOf(t, at, kernel, root, 1) == KernelTop ==> Spot(root, [1]) !in at
  {
    hide EntryAt;
  }

  lemma BareTop(o: Before, t: Tables, at: Places, root: nat)
    requires Bare(o, t, at, root) && Spot(o.kernel, [1]) in o.at
    ensures TopOf(t, at, o.kernel, root, 1) == KernelTop
  {
    BareFacts(o, t, at, root);
    TopEntry(o.tables, o.at, o.kernel, o.kernel, 1);
    hide Forest;
  }

  /** Otherwise nothing of the kernel's is ever in the way. */
  lemma BareFree(o: Before, t0: Tables, at0: Places, free0: seq<Range>, t1: Tables, at1: Places, free1: seq<Range>,
                 lost: seq<Range>, root: nat)
    requires Bare(o, t0, at0, root) && Spot(o.kernel, [1]) !in o.at
    requires Extends(t0, at0, free0, lost, t1, at1, free1, lost, root)
    ensures !KernelEntry(t1, at1, o.kernel, Spot(root, []), 1)
  {
    BareFacts(o, t0, at0, root);
    hide Forest, Returned, Added, TopKept, Bare;
  }

  /** Mapping the image: it succeeds exactly when the region is the process's and there are pages for
      its three tables. */
  lemma ImageMaps(o: Before, t0: Tables, at0: Places, free0: seq<Range>, t1: Tables, at1: Places, free1: seq<Range>,
                  lost: seq<Range>, root: nat, p: nat, n: nat, ok: bool, mapped: nat)
    requires Bare(o, t0, at0, root) && Canonical(free1)
    requires Forest(t0, at0, o.kernel) && Forest(t1, at1, o.kernel)
             && Extends(t0, at0, free0, lost, t1, at1, free1, lost, root)
    requires NewFor(at0, at1, root, p, n) && Paid(at0, free0, at1, free1) && REGION <= p && p + n <= REGION_END
    requires ok ==> mapped == n > 0 && HasTables(at1, root, p, mapped)
    requires !ok ==> mapped < n && Stopped(t1, at1, free1, o.kernel, root, PageKey(p + mapped))
    ensures ok <==> Spot(o.kernel, [1]) !in o.at && Total(free0) >= TABLES
    ensures ok ==> Spot(root, [1, 0, 0]) in at1
    ensures if ok then |at1| == |at0| + TABLES else |at1| <= |at0| + TABLES
  {
    hide *;
    Numbered();
    BareFacts(o, t0, at0, root);
    InExtended(t0, at0, free0, t1, at1, free1, lost, root);
    RegionNew(at0, at1, root, p, n);
    RegionUp(t1, at1, o.kernel, root);
    RegionCount(at0, at1, root);
    PaidCounts(at0, free0, at1, free1);
    if ok {
      HasFirst(at1, root, p, mapped);
      RegionPt(root, p);
      if Spot(o.kernel, [1]) in o.at {
        BareCovered(o, t0, at0, free0, t1, at1, free1, lost, root);
      }
    } else {
      RegionPt(root, p + mapped);
      StoppedIs(t1, at1, free1, o.kernel, root, PageKey(p + mapped));
      if Spot(o.kernel, [1]) !in o.at {
        BareFree(o, t0, at0, free0, t1, at1, free1, lost, root);
        NoPageTotal(free1);
      }
    }
  }

  lemma Numbered()
    ensures TABLES == 3
  {
  }

  lemma HasFirst(at: Places, root: nat, p: nat, n: nat)
    requires HasTables(at, root, p, n) && n > 0
    ensures Pt(root, PageKey(p)) in at
  {
    hide Pt, PageKey;
  }

  lemma StoppedIs(t: Tables, at: Places, free: seq<Range>, kernel: nat, root: nat, k: Key)
    requires Stopped(t, at, free, kernel, root, k)
    ensures KernelEntry(t, at, kernel, Spot(root, []), k.a) || (NoPage(free) && Pt(root, k) !in at)
  {
    hide KernelEntry, NoPage, Pt;
  }

  /** Once the tables are there, mapping the stack cannot be stopped. */
  lemma StackMaps(t: Tables, at: Places, free: seq<Range>, kernel: nat, root: nat, v: nat)
    requires Forest(t, at, kernel) && Spot(root, [1, 0, 0]) in at && root != kernel && REGION <= v < REGION_END
    requires Spot(root, []) in at
    ensures !Stopped(t, at, free, kernel, root, PageKey(v))
  {
    RegionPt(root, v);
    RegionUp(t, at, kernel, root);
    OwnNotKernel(t, at, kernel, root);
    hide *;
    if Stopped(t, at, free, kernel, root, PageKey(v)) {
      StoppedIs(t, at, free, kernel, root, PageKey(v));
    }
  }

  /** Nor does it need any page. */
  lemma StackNew(t: Tables, at: Places, free: seq<Range>, t': Tables, at': Places, free': seq<Range>, lost: seq<Range>,
                 kernel: nat, root: nat, p: nat, n: nat)
    requires Forest(t, at, kernel) && Extends(t, at, free, lost, t', at', free', lost, root)
    requires NewFor(at, at', root, p, n) && Paid(at, free, at', free') && REGION <= p && p + n <= REGION_END
    requires Spot(root, [1, 0, 0]) in at
    ensures |at'| == |at| && free' == free
  {
    hide *;
    RegionUp(t, at, kernel, root);
    RegionNew(at, at', root, p, n);
    InExtended(t, at, free, t', at', free', lost, root);
    SameCount(at, at', root);
    PaidNothing(at, free, at', free');
  }

  lemma SameCount(at: Places, at': Places, root: nat)
    requires (forall s | s in at :: s in at') && forall s | s in at' && s !in at :: RegionSpot(s, root)
    requires Spot(root, [1]) in at && Spot(root, [1, 0]) in at && Spot(root, [1, 0, 0]) in at
    ensures |at'| == |at|
  {
    assert at'.Keys == at.Keys;
  }

  lemma OwnNotKernel(t: Tables, at: Places, kernel: nat, root: nat)
    requires Forest(t, at, kernel) && Spot(root, []) in at && Spot(root, [1]) in at && root != kernel
    ensures !KernelEntry(t, at, kernel, Spot(root, []), 1)
  {
    TopEntry(t, at, kernel, root, 1);
    hide Forest;
  }
}
