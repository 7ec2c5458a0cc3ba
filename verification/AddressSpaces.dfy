/** An address space from its creation to its end, whatever is mapped in it in between. */
module AddressSpaces {
  import opened Bytes
  import opened PageRanges
  import opened PageFrames
  import opened PageTables
  import opened PagingFacts
  import opened BootMaps
  import opened Paging
  import opened ProcessPages

  /** The arguments of one `paging_map_user_range`. */
  datatype Mapping = Mapping(va: nat, pa: nat, size: nat, writable: bool, executable: bool)

  ghost predicate InWords(m: Mapping) {
    m.va < WORD && m.pa < WORD && m.size < WORD
  }

  /** Later mappings cover earlier ones, as far as each got. */
  ghost function Layered(before: Option<Leaf>, k: Key, ms: seq<Mapping>, mapped: seq<nat>): Option<Leaf>
    requires |ms| == |mapped|
  {
    if ms == [] then before
    else
      var n := |ms| - 1;
      Overlaid(Layered(before, k, ms[..n], mapped[..n]), k, ms[n].va / PAGE_SIZE, ms[n].pa / PAGE_SIZE, mapped[n],
        ms[n].writable, true, ms[n].executable)
  }

  /** Mapping `m`, of whose pages the first `n` were mapped, maps page `v`. */
  predicate MapsPage(m: Mapping, n: nat, v: nat) {
    m.va / 4096 <= v < m.va / 4096 + n
  }

  /** The last mapping that got to a page decides where it lies and what may be done there. */
  lemma {:induction false} LayeredLast(before: Option<Leaf>, ms: seq<Mapping>, mapped: seq<nat>, i: nat, v: nat)
    requires |ms| == |mapped| && i < |ms| && v < 0x10_0000_0000
    requires forall j: nat | j < |ms| :: ms[j].va / 4096 + mapped[j] <= 0x10_0000_0000
    requires MapsPage(ms[i], mapped[i], v) && forall j: nat | i < j < |ms| :: !MapsPage(ms[j], mapped[j], v)
    ensures var frame := ms[i].pa / 4096 + (v - ms[i].va / 4096);
            frame < 0x100_0000_0000 ==>
              Layered(before, PageKey(v), ms, mapped) ==
              Some(Leaf(frame * 4096, ms[i].writable, true, ms[i].executable))
    decreases |ms|
  {
    var n := |ms| - 1;
    var frame: nat := ms[i].pa / 4096 + (v - ms[i].va / 4096);
    hide *;
    LayeredStep(before, ms, mapped, v);
    if i < n {
      LayeredLast(before, ms[..n], mapped[..n], i, v);
    } else if frame < 0x100_0000_0000 {
      PageFrame(frame, ms[i].writable, ms[i].executable);
    }
  }

  lemma PageFrame(frame: nat, writable: bool, executable: bool)
    requires frame < 0x100_0000_0000
    ensures FrameLeaf(frame, writable, true, executable) == Leaf(frame * 4096, writable, true, executable)
  {
    FramePlain(frame, writable, true, executable);
    hide FrameLeaf;
  }

  lemma LayeredStep(before: Option<Leaf>, ms: seq<Mapping>, mapped: seq<nat>, v: nat)
    requires |ms| == |mapped| && ms != [] && v < 0x10_0000_0000
    requires ms[|ms| - 1].va / 4096 + mapped[|ms| - 1] <= 0x10_0000_0000
    ensures var n := |ms| - 1;
            Layered(before, PageKey(v), ms, mapped) ==
            if MapsPage(ms[n], mapped[n], v) then
              Some(FrameLeaf(ms[n].pa / 4096 + (v - ms[n].va / 4096), ms[n].writable, true, ms[n].executable))
            else Layered(before, PageKey(v), ms[..n], mapped[..n])
  {
    hide PageKey, Overlaid, FrameLeaf;
    var n := |ms| - 1;
    OverlaidPages(Layered(before, PageKey(v), ms[..n], mapped[..n]), ms[n].va / PAGE_SIZE, ms[n].pa / PAGE_SIZE,
      mapped[n], ms[n].writable, true, ms[n].executable, v);
  }

  /** A page that none of them got to stays where the kernel has it. */
  lemma {:induction false} LayeredNone(before: Option<Leaf>, ms: seq<Mapping>, mapped: seq<nat>, v: nat)
    requires |ms| == |mapped| && v < 0x10_0000_0000
    requires forall j: nat | j < |ms| :: ms[j].va / 4096 + mapped[j] <= 0x10_0000_0000
    requires forall j: nat | j < |ms| :: !MapsPage(ms[j], mapped[j], v)
    ensures Layered(before, PageKey(v), ms, mapped) == before
    decreases |ms|
  {
    if ms != [] {
      hide *;
      var n := |ms| - 1;
      LayeredStep(before, ms, mapped, v);
      LayeredNone(before, ms[..n], mapped[..n], v);
    }
  }

  /** A mapping succeeds on the whole of its range, or stops short of its end. */
  predicate Reached(m: Mapping, ok: bool, mapped: nat) {
    if RangeFits(m.va, m.pa, m.size) then ok <==> mapped == RangePages(m.va, m.size)
    else !ok && mapped == 0
  }

  /** The space shows its mappings over the kernel's own; every table there was is as it was. */
  ghost predicate Lives(o: Before, t: Tables, root: nat, ms: seq<Mapping>, mapped: seq<nat>) {
    && |ms| == |mapped|
    && (forall k | ValidKey(k) :: Translate(t, root, k) == Layered(Translate(o.tables, o.kernel, k), k, ms, mapped))
    && forall f | f in o.tables :: f in t && t[f] == o.tables[f]
  }

  lemma LivesFirst(o: Before, t: Tables, root: nat)
    requires forall k :: Translate(t, root, k) == Translate(o.tables, o.kernel, k)
    requires forall f | f in o.tables :: f in t && t[f] == o.tables[f]
    ensures Lives(o, t, root, [], [])
  {
    hide Translate;
  }

  lemma LivesNext(o: Before, t: Tables, at: Places, free: seq<Range>, t': Tables, at': Places, free': seq<Range>,
                  lost: seq<Range>,
                  root: nat, ms: seq<Mapping>, mapped: seq<nat>, m: Mapping, n: nat)
    requires Lives(o, t, root, ms, mapped) && Spot(root, []) in at
    requires Forest(t, at, o.kernel) && Forest(t', at', o.kernel)
             && Extends(t, at, free, lost, t', at', free', lost, root)
    requires MapsRange(t, at, t', at', o.kernel, root, m.va / PAGE_SIZE, m.pa / PAGE_SIZE, n, m.writable, true,
             m.executable)
    requires forall f | f in o.tables :: f in t' && t'[f] == o.tables[f]
    ensures Lives(o, t', root, ms + [m], mapped + [n])
  {
    hide Forest, Extends, MapsRange, Overlaid, Translate;
    assert (ms + [m])[..|ms|] == ms && (mapped + [n])[..|ms|] == mapped;
    forall k | ValidKey(k) ensures Translate(t', root, k) == Layered(Translate(o.tables, o.kernel, k), k, ms + [m],
      mapped + [n]) {
      RangeTranslates(t, at, free, t', at', free', lost, o.kernel, root, m.va / PAGE_SIZE, m.pa / PAGE_SIZE, n,
        m.writable,
        true, m.executable, k);
    }
  }

  /** A private space changes no table that was there before it. */
  lemma LedgerTables(o: Before, t: Tables, at: Places, free: seq<Range>, lost: seq<Range>, root: nat, bs: set<Range>)
    requires Ledger(o, t, at, free, lost, root, bs) && root > 0
    ensures forall f | f in o.tables :: f in t && t[f] == o.tables[f]
  {
    hide Clean, Held, Returned, Blocked, Added;
    assert OnePlace(o.tables, o.at);
    hide Forest;
    forall f | f in o.tables ensures f in t && t[f] == o.tables[f] {
      var s :| s in o.at && o.at[s] == f;
    }
  }

  lemma RangeReached(m: Mapping, ok: bool, mapped: nat)
    requires ok ==> RangeFits(m.va, m.pa, m.size) && mapped == RangePages(m.va, m.size)
    requires !ok ==> if RangeFits(m.va, m.pa, m.size) then mapped < RangePages(m.va, m.size) else mapped == 0
    ensures Reached(m, ok, mapped)
  {
  }

  /** The tables, their places and the free pages at one time. */
  datatype Moment = Moment(tables: Tables, at: Places, free: seq<Range>)

  /** One mapping: how far it got and what stopped it at the next page, which pages of memory it
      took, and that no other page of any space moved. */
  ghost predicate Stepped(o: Before, root: nat, m: Mapping, ok: bool, mapped: nat, x: Moment, y: Moment) {
    && Reached(m, ok, mapped)
    && MapsRange(x.tables, x.at, y.tables, y.at, o.kernel, root, m.va / PAGE_SIZE, m.pa / PAGE_SIZE, mapped,
                 m.writable, true, m.executable)
    && HasTables(y.at, root, m.va / PAGE_SIZE, mapped) && Paid(x.at, x.free, y.at, y.free)
    && (!ok && RangeFits(m.va, m.pa, m.size) ==> StoppedAt(o, root, PageKey(m.va / PAGE_SIZE + mapped), y))
  }

  /** The kernel had tables of its own under the page's top entry, or one of the page's tables is
      missing and there is no page for it. */
  ghost predicate StoppedAt(o: Before, root: nat, k: Key, y: Moment) {
    Spot(o.kernel, [k.a]) in o.at || (NoPage(y.free) && Pt(root, k) !in y.at)
  }

  lemma StopIs(o: Before, root: nat, k: Key, y: Moment, lost: seq<Range>)
    requires Ledger(o, y.tables, y.at, y.free, lost, root, {}) && root > 0
    requires Stopped(y.tables, y.at, y.free, o.kernel, root, k)
    ensures StoppedAt(o, root, k, y)
  {
    LedgerSpace(o, y.tables, y.at, y.free, lost, root, {});
    hide Forest, Clean, Held, Returned, Blocked, Added, NoPage, Pt;
    assert forall s | s in y.at && s !in o.at :: s.root == root;
  }

  lemma StepIs(o: Before, root: nat, m: Mapping, ok: bool, mapped: nat, x: Moment, y: Moment)
    requires Reached(m, ok, mapped)
    requires MapsRange(x.tables, x.at, y.tables, y.at, o.kernel, root, m.va / PAGE_SIZE, m.pa / PAGE_SIZE, mapped,
                       m.writable, true, m.executable)
    requires HasTables(y.at, root, m.va / PAGE_SIZE, mapped) && Paid(x.at, x.free, y.at, y.free)
    requires !ok && RangeFits(m.va, m.pa, m.size) ==> StoppedAt(o, root, PageKey(m.va / PAGE_SIZE + mapped), y)
    ensures Stepped(o, root, m, ok, mapped, x, y)
  {
    hide MapsRange, StoppedAt, Reached, HasTables, Paid;
  }

  /** `paging_create_address_space`, any sequence of `paging_map_user_range`, of which any may fail,
      and `paging_destroy_address_space`: at every moment of its life the space shows what was
      mapped so far and no other table changes; afterwards all is as before, every page returned
      exactly once. */
  method UseSpace(pager: Pager, ms: seq<Mapping>)
    returns (done: seq<bool>, ghost root: nat, ghost mapped: seq<nat>, ghost moments: seq<Moment>)
    requires pager.Valid() && forall i | 0 <= i < |ms| :: InWords(ms[i])
    modifies pager`tables, pager`at, pager.pages`count, pager.pages`lost, pager.pages.ranges
    ensures pager.Valid() && pager.kernel == old(pager.kernel)
    ensures pager.tables == old(pager.tables) && pager.at == old(pager.at)
    ensures old(pager.pages.lost) <= pager.pages.lost
    ensures forall a: nat :: Returned(pager.pages.View(), pager.pages.lost, a) <==>
                             Returned(old(pager.pages.View()), old(pager.pages.lost), a)
    ensures pager.pages.lost == old(pager.pages.lost) ==> pager.pages.View() == old(pager.pages.View())
    ensures root != 0 ==>
              |moments| == |ms| + 1
              && var end := moments[|ms|];
                 && Paid(old(pager.at), old(pager.pages.View()), end.at, end.free)
                 && Given(end.free, old(pager.pages.lost), SpaceTables(end.at, root), pager.pages.View(),
                      pager.pages.lost)
                 && |SpaceTables(end.at, root)| == |end.at| - |old(pager.at)|
    ensures root != 0 && |old(pager.pages.View())| + |moments[|ms|].at| <= MAX_RANGES + |old(pager.at)| ==>
              pager.pages.lost == old(pager.pages.lost) && pager.pages.View() == old(pager.pages.View())
    ensures root == 0 ==> done == [] && NoPage(old(pager.pages.View()))
    ensures root != 0 ==> root !in old(pager.tables) && |done| == |ms| == |mapped| && |moments| == |ms| + 1
    ensures var o := Before(old(pager.tables), old(pager.at), old(pager.kernel), old(pager.pages.View()),
                            old(pager.pages.lost));
            root != 0 ==>
              && (forall i | 0 <= i <= |ms| :: Lives(o, moments[i].tables, root, ms[..i], mapped[..i]))
              && forall i | 0 <= i < |ms| :: Stepped(o, root, ms[i], done[i], mapped[i], moments[i], moments[i + 1])
  {
    hide *;
    pager.Parts();
    ghost var o := Start(pager);
    ghost var free := pager.pages.View();
    done, mapped, moments := [], [], [];
    var space := pager.CreateAddressSpace();
    root := space;
    if space == 0 {
      pager.Parts();
      return;
    }
    pager.Parts();
    LedgerOpen(o, free, pager.pages.lost, {}, pager.pages.View(), space);
    LedgerTables(o, pager.tables, pager.at, pager.pages.View(), pager.pages.lost, space, {});
    LivesFirst(o, pager.tables, space);
    FirstPaid(o, pager.at, pager.pages.View(), space);
    moments := [Moment(pager.tables, pager.at, pager.pages.View())];
    for i := 0 to |ms|
      invariant pager.Valid() && pager.pages.Shaped() && pager.kernel == o.kernel
      invariant Ledger(o, pager.tables, pager.at, pager.pages.View(), pager.pages.lost, space, {})
      invariant pager.pages.lost == o.lost && Paid(o.at, o.free, pager.at, pager.pages.View())
      invariant |done| == |mapped| == i && |moments| == i + 1
      invariant moments[i] == Moment(pager.tables, pager.at, pager.pages.View())
      invariant forall j | 0 <= j <= i :: Lives(o, moments[j].tables, space, ms[..j], mapped[..j])
      invariant forall j | 0 <= j < i :: Stepped(o, space, ms[j], done[j], mapped[j], moments[j], moments[j + 1])
    {
      ghost var n;
      var ok;
      assert mapped[..i] == mapped;
      ok, n := MapOne(pager, ms[i], o, space, ms[..i], mapped, moments[i]);
      pager.Parts();
      PaidTwice(o.at, o.free, moments[i].at, moments[i].free, pager.at, pager.pages.View());
      assert ms[..i + 1] == ms[..i] + [ms[i]];
      ghost var was := mapped;
      done, mapped := done + [ok], mapped + [n];
      moments := moments + [Moment(pager.tables, pager.at, pager.pages.View())];
      assert mapped[..i + 1] == mapped;
      assert forall j | 0 <= j <= i :: mapped[..j] == was[..j];
    }
    ghost var end := moments[|ms|];
    PaidCounts(o.at, o.free, end.at, end.free);
    End(pager, o, space);
    pager.Parts();
    if |o.free| + |end.at| <= MAX_RANGES + |o.at| {
      GivenKeeps(end.free, o.lost, SpaceTables(end.at, space), pager.pages.View(), pager.pages.lost);
    }
  }

  lemma FirstPaid(o: Before, at: Places, free: seq<Range>, root: nat)
    requires CanOpen(o.tables, o.at, o.kernel, root) && at == o.at[Spot(root, []) := root]
    requires FirstFit(o.free, 1) < |o.free| && free == Taken(o.free, 1)
    ensures Paid(o.at, o.free, at, free)
  {
    NoRoot(o, root);
    hide *;
    PaidOne(o.at, o.free, free, Spot(root, []), root);
  }

  /** One mapping in the middle of it all. */
  method MapOne(pager: Pager, m: Mapping, ghost o: Before, space: nat, ghost ms: seq<Mapping>, ghost mapped: seq<nat>,
                ghost x: Moment)
    returns (ok: bool, ghost n: nat)
    requires pager.Valid() && pager.kernel == o.kernel && space > 0 && InWords(m)
    requires Ledger(o, pager.tables, pager.at, pager.pages.View(), pager.pages.lost, space, {})
    requires x == Moment(pager.tables, pager.at, pager.pages.View()) && Lives(o, x.tables, space, ms, mapped)
    modifies pager`tables, pager`at, pager.pages`count, pager.pages.ranges
    ensures pager.Valid() && Ledger(o, pager.tables, pager.at, pager.pages.View(), pager.pages.lost, space, {})
    ensures Lives(o, pager.tables, space, ms + [m], mapped + [n])
    ensures Stepped(o, space, m, ok, n, x, Moment(pager.tables, pager.at, pager.pages.View()))
    ensures Paid(x.at, x.free, pager.at, pager.pages.View())
  {
    hide *;
    pager.Parts();
    ghost var free, t, at := pager.pages.View(), pager.tables, pager.at;
    LedgerSpace(o, t, at, free, pager.pages.lost, space, {});
    Words(m);
    ok, n := pager.MapRange(space, m.va, m.pa, m.size, m.writable, m.executable, true);
    pager.Parts();
    Sizes();
    RangeReached(m, ok, n);
    LedgerExtends(o, t, at, free, pager.pages.lost, space, {}, pager.tables, pager.at, pager.pages.View());
    ghost var y := Moment(pager.tables, pager.at, pager.pages.View());
    if !ok && RangeFits(m.va, m.pa, m.size) {
      StopIs(o, space, PageKey(m.va / PAGE_SIZE + n), y, pager.pages.lost);
    }
    StepIs(o, space, m, ok, n, x, y);
    LedgerTables(o, pager.tables, pager.at, pager.pages.View(), pager.pages.lost, space, {});
    LivesNext(o, t, at, free, pager.tables, pager.at, pager.pages.View(), pager.pages.lost, space, ms, mapped, m, n);
  }

  lemma Words(m: Mapping)
    requires InWords(m)
    ensures m.va < WORD && m.pa < WORD && m.size < WORD
  {
  }

  ghost method Start(pager: Pager) returns (o: Before)
    requires pager.Valid()
    ensures pager.pages.Shaped()
            && o == Before(pager.tables, pager.at, pager.kernel, pager.pages.View(), pager.pages.lost)
    ensures Ledger(o, pager.tables, pager.at, pager.pages.View(), pager.pages.lost, 0, {})
    ensures Canonical(o.free) && Clean(o.tables, o.free, o.lost)
  {
    pager.Parts();
    o := Before(pager.tables, pager.at, pager.kernel, pager.pages.View(), pager.pages.lost);
    LedgerStart(o);
    hide Forest, Clean, Returned, Canonical, Ledger;
  }

  /** `paging_destroy_address_space`, and the books closed. */
  method End(pager: Pager, ghost o: Before, space: nat)
    requires pager.Valid() && pager.kernel == o.kernel && space > 0 && Canonical(o.free)
             && Clean(o.tables, o.free, o.lost)
    requires Ledger(o, pager.tables, pager.at, pager.pages.View(), pager.pages.lost, space, {})
    modifies pager`tables, pager`at, pager.pages`count, pager.pages`lost, pager.pages.ranges
    ensures pager.Valid() && pager.tables == o.tables && pager.at == o.at && o.lost <= pager.pages.lost
    ensures forall a: nat :: Returned(pager.pages.View(), pager.pages.lost, a) <==> Returned(o.free, o.lost, a)
    ensures pager.pages.lost == o.lost ==> pager.pages.View() == o.free
    ensures Given(old(pager.pages.View()), old(pager.pages.lost), SpaceTables(old(pager.at), space), pager.pages.View(),
                  pager.pages.lost)
    ensures |SpaceTables(old(pager.at), space)| + |o.at| == |old(pager.at)|
  {
    hide *;
    pager.Parts();
    ghost var free, lost, t, at := pager.pages.View(), pager.pages.lost, pager.tables, pager.at;
    LedgerSpace(o, t, at, free, lost, space, {});
    pager.DestroyAddressSpace(space);
    pager.Parts();
    LedgerClose(o, t, at, free, lost, space, {}, pager.pages.View(), pager.pages.lost);
    SpaceTablesOnce(t, at, o.kernel, space);
    IsCanonical(pager);
    LedgerEnd(o, pager.tables, pager.at, pager.pages.View(), pager.pages.lost);
  }

  lemma IsCanonical(pager: Pager)
    requires pager.Valid()
    ensures pager.pages.Shaped() && Canonical(pager.pages.View())
  {
    hide Forest, Clean;
  }
}
