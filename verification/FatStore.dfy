/** The mounted volume's table and clusters, and the walks over one directory's chain. */
module FatStore {
  import opened Bytes
  import opened FatSlots
  import opened FatNames
  import opened FatTables
  import opened FatBlocks
  import opened FatDirectory

  const SECTOR_SIZE := 512
  const MAX_CLUSTER_SIZE := 4096

  /** Cluster `n` of a directory holds slots `n * per` up to `n * per + per`. */
  lemma Window(disk: Disk, size: nat, cs: seq<nat>, n: nat)
    requires ValidDisk(disk, size) && ClustersOn(disk, cs) && n < |cs|
    ensures |DirSlots(disk, cs)| == |cs| * (size / SLOT_SIZE)
    ensures n * (size / SLOT_SIZE) + size / SLOT_SIZE <= |DirSlots(disk, cs)|
    ensures n + 1 == |cs| ==> n * (size / SLOT_SIZE) + size / SLOT_SIZE == |DirSlots(disk, cs)|
    ensures DirSlots(disk, cs)[n * (size / SLOT_SIZE)..n * (size / SLOT_SIZE) + size / SLOT_SIZE] == Slots(disk[cs[n]])
  {
    var blocks := SlotBlocks(disk, cs);
    SlotBlocksUniform(disk, size, cs);
    FlatPosition(blocks, size / SLOT_SIZE, n);
    FlatAround(blocks, n);
    assert blocks[n] == Slots(disk[cs[n]]);
    hide SlotBlocks, Flat, Slots, Uniform, ValidDisk;
    MiddleSlice(Flat(blocks[..n]), blocks[n], Flat(blocks[n + 1..]));
    assert n + 1 == |cs| ==> (n + 1) * (size / SLOT_SIZE) == n * (size / SLOT_SIZE) + size / SLOT_SIZE;
  }

  lemma MiddleSlice<T>(a: seq<T>, m: seq<T>, z: seq<T>)
    ensures (a + m + z)[|a|..|a| + |m|] == m
  {
  }

  /** Which cluster of a directory holds a slot, and where in it. */
  function Hop(index: nat, per: nat): nat {
    if per == 0 then 0 else index / per
  }

  function Place(index: nat, per: nat): nat {
    if per == 0 then 0 else index % per
  }

  /** The first slot of cluster `n`. */
  function Base(n: nat, per: nat): nat {
    n * per
  }

  /** Slot `index` lies in cluster `index / per`, which exists exactly when the slot does. */
  lemma IndexInside(index: nat, per: nat, n: nat)
    requires per > 0
    ensures index == Hop(index, per) * per + Place(index, per)
    ensures index < n * per <==> Hop(index, per) < n
    ensures Place(index, per) < per
  {
    if index / per < n {
      Product(index / per + 1, n, per);
    } else {
      Product(n, index / per, per);
    }
  }

  method EqualsIgnoreCase(a: Str, b: Str) returns (eq: bool)
    ensures eq == (Fold(a) == Fold(b))
  {
    var i := 0;
    while i < |a| && i < |b|
      invariant 0 <= i <= |a| && i <= |b|
      invariant Fold(a)[..i] == Fold(b)[..i]
    {
      if ToUpper(a[i]) != ToUpper(b[i]) {
        assert Fold(a)[i] != Fold(b)[i];
        return false;
      }
      assert Fold(a)[..i + 1] == Fold(a)[..i] + [Fold(a)[i]];
      assert Fold(b)[..i + 1] == Fold(b)[..i] + [Fold(b)[i]];
      i := i + 1;
    }
    assert i == |a| == |b| ==> Fold(a)[..i] == Fold(a) && Fold(b)[..i] == Fold(b);
    eq := i == |a| && i == |b|;
  }

  // ----------------------------------------------------------- one cluster

  datatype Outcome = Continue | Ended | Matched(i: nat)

  /** Nothing named `name` ends before slot `p`, and the directory has not ended there. */
  ghost predicate NotBefore(all: seq<Slot>, view: View, name: Str, p: nat)
    requires p <= |all|
  {
    && (forall q: nat | q < p :: !IsEnd(all[q]))
    && (Fold(name) in view ==> p <= view[Fold(name)].Last())
  }

  lemma LastSlot(all: seq<Slot>, view: View, k: Str)
    requires ValidDirectory(all, view) && k in view
    ensures view[k].Last() < |all| && all[view[k].Last()] == view[k].entry
    ensures !IsFreeSlot(view[k].entry) && !IsLfn(view[k].entry) && !HasVolumeBit(view[k].entry)
    ensures Fold(view[k].name) == k
  {
    hide Named, AllDistinct, AllCovered, EndsOnce;
    assert Entered(all, view, k);
  }

  lemma LastUnique(view: View, k: Str, l: Str)
    requires AllDistinct(view) && k in view && l in view && view[k].Last() == view[l].Last()
    ensures k == l
  {
    var apart := Distinct(view[k], view[l]);
  }

  lemma NotBeforeStep(all: seq<Slot>, view: View, name: Str, p: nat)
    requires ValidDirectory(all, view) && p < |all|
    requires NotBefore(all, view, name, p) && !IsEnd(all[p])
    requires IsDeleted(all[p]) || IsLfn(all[p])
    ensures NotBefore(all, view, name, p + 1)
  {
    hide ValidDirectory;
    if Fold(name) in view {
      LastSlot(all, view, Fold(name));
    }
  }

  lemma NotAfterEnd(all: seq<Slot>, view: View, name: Str, p: nat)
    requires ValidDirectory(all, view) && p <= |all|
    requires NotBefore(all, view, name, p) && (p < |all| ==> IsEnd(all[p]))
    ensures Fold(name) !in view
  {
    hide AllEntered, AllDistinct, AllCovered;
    if Fold(name) in view {
      LastSlot(all, view, Fold(name));
    }
  }

  /** At a short entry the reader's name is the group's, so the comparison decides the key. */
  lemma EntryDecides(all: seq<Slot>, view: View, name: Str, p: nat, st: LfnState)
    requires ValidDirectory(all, view) && p < |all| && !st.active
    requires NotBefore(all, view, name, p) && !IsFreeSlot(all[p]) && !IsLfn(all[p])
    ensures !HasVolumeBit(all[p])
    ensures var decoded := DecodeName(all[p], Scan(all, st, p));
            if Fold(decoded) == Fold(name) then Fold(name) in view && view[Fold(name)].Last() == p
            else NotBefore(all, view, name, p + 1)
    ensures Fold(name) in view && view[Fold(name)].Last() == p ==>
              (HasLongName(all[p], Scan(all, st, p)) <==> view[Fold(name)].lfns > 0)
  {
    hide AllDistinct, AllCovered, EndsOnce, DecodeName, Fold, Named, HasLongName, Scan;
    var k := EntryOfSlot(all, view, p);
    assert Entered(all, view, k);
    ScanNames(all, st, view[k]);
    if Fold(name) in view && view[Fold(name)].Last() == p {
      LastUnique(view, k, Fold(name));
    }
  }

  method ScanCluster(slots: seq<Slot>, base: nat, name: Str, lfn: LfnReader,
                     ghost all: seq<Slot>, ghost view: View, ghost st: LfnState)
    returns (o: Outcome)
    requires base + |slots| <= |all| && all[base..base + |slots|] == slots
    requires lfn.Valid() && lfn.View() == Scan(all, st, base) && !st.active
    requires ValidDirectory(all, view) && NotBefore(all, view, name, base)
    modifies lfn, lfn.name
    ensures o.Continue? ==> lfn.View() == Scan(all, st, base + |slots|) && NotBefore(all, view, name, base + |slots|)
    ensures o.Ended? ==> Fold(name) !in view
    ensures o.Matched? ==>
              && o.i < |slots| && lfn.View() == Scan(all, st, base + o.i)
              && Fold(name) in view && view[Fold(name)].Last() == base + o.i
              && (HasLongName(slots[o.i], lfn.View()) <==> view[Fold(name)].lfns > 0)
  {
    hide ValidDirectory, NotBefore, DecodeName, HasLongName, ProcessLfn;
    for i := 0 to |slots|
      invariant lfn.View() == Scan(all, st, base + i)
      invariant NotBefore(all, view, name, base + i)
    {
      var entry := slots[i];
      assert entry == all[base + i];
      if IsEnd(entry) {
        NotAfterEnd(all, view, name, base + i);
        return Ended;
      }
      if IsDeleted(entry) {
        NotBeforeStep(all, view, name, base + i);
        lfn.ResetState();
      } else if IsLfn(entry) {
        NotBeforeStep(all, view, name, base + i);
        lfn.ProcessEntry(entry);
      } else if HasVolumeBit(entry) {
        EntryDecides(all, view, name, base + i, st);
        assert false;
      } else {
        EntryDecides(all, view, name, base + i, st);
        var same := EqualsIgnoreCase(DecodeName(entry, lfn.View()), name);
        if same {
          return Matched(i);
        }
        lfn.ResetState();
      }
    }
    o := Continue;
  }

  // ------------------------------------------------------ the mounted store

  datatype EntryRef = EntryRef(index: nat, lfns: nat, entry: Slot)

  /** Table and clusters of the mounted volume.  The methods take the chain they walk as a
      ghost argument. */
  class Store {
    const table: FatTable
    const disk: array<seq<Byte>>
    const size: nat

    ghost predicate Valid()
      reads disk, table.entries
    {
      && SECTOR_SIZE <= size <= MAX_CLUSTER_SIZE && size % SECTOR_SIZE == 0
      && disk.Length == table.entries.Length <= MAX_CLUSTERS
      && ValidDisk(disk[..], size)
    }

    function Per(): nat { size / SLOT_SIZE }

    ghost predicate Holds(cs: seq<nat>)
      requires Valid()
      reads disk, table.entries
    {
      IsChain(table.View(), cs)
    }

    ghost function All(cs: seq<nat>): seq<Slot>
      reads disk
    {
      DirSlots(disk[..], cs)
    }

    constructor (table: FatTable, clusters: Disk, size: nat)
      requires SECTOR_SIZE <= size <= MAX_CLUSTER_SIZE && size % SECTOR_SIZE == 0
      requires |clusters| == table.entries.Length <= MAX_CLUSTERS && ValidDisk(clusters, size)
      ensures Valid() && this.table == table && this.size == size && fresh(disk) && disk[..] == clusters
    {
      this.table, this.size := table, size;
      disk := new seq<Byte>[|clusters|](i requires 0 <= i < |clusters| => clusters[i]);
      new;
      assert disk[..] == clusters;
    }

    lemma ChainOnDisk(cs: seq<nat>)
      requires Valid() && Holds(cs)
      ensures ClustersOn(disk[..], cs) && NoDuplicates(cs) && Per() >= 16
      ensures |All(cs)| == |cs| * Per()
    {
      ChainAcyclic(table.View(), cs);
      forall i | 0 <= i < |cs| ensures cs[i] < disk.Length {
        assert LinkAt(table.View(), cs, i);
      }
      Window(disk[..], size, cs, 0);
    }

    /** The cluster that holds slot `index`, and the slot's place in it. */
    method ClusterForIndex(first: U32, index: nat, ghost cs: seq<nat>) returns (cluster: U32, place: nat)
      requires Valid() && Holds(cs) && cs[0] == first
      ensures place == Place(index, Per())
      ensures if Hop(index, Per()) < |cs| then cluster == cs[Hop(index, Per())] && InChain(cluster)
              else !InChain(cluster)
    {
      cluster := FollowChain(first, Hop(index, Per()), cs);
      place := Place(index, Per());
    }

    /** `get_cluster_at_index`: the cluster `hops` links down the chain. */
    method FollowChain(first: U32, hops: nat, ghost cs: seq<nat>) returns (cluster: U32)
      requires Valid() && Holds(cs) && cs[0] == first
      ensures if hops < |cs| then cluster == cs[hops] && InChain(cluster) else !InChain(cluster)
    {
      cluster := first;
      var left := hops;
      ghost var i := 0;
      while left != 0 && InChain(cluster)
        invariant 0 <= left && i + left == hops && i <= |cs|
        invariant if i < |cs| then cluster == cs[i] else !InChain(cluster)
        decreases left
      {
        assert LinkAt(table.View(), cs, i);
        cluster := table.NextCluster(cluster);
        left := left - 1;
        i := i + 1;
      }
      assert i < |cs| ==> LinkAt(table.View(), cs, i);
    }

    method ReadSlot(first: U32, index: nat, ghost cs: seq<nat>) returns (r: Result, s: Slot)
      requires Valid() && Holds(cs) && cs[0] == first
      ensures index < |All(cs)| ==> r == Ok && s == All(cs)[index]
      ensures index >= |All(cs)| ==> r == NotFound
    {
      hide DirSlots, ValidDisk, Slots, IsChain, Hop, Place;
      var cluster, place := ClusterForIndex(first, index, cs);
      SlotPosition(cs, index);
      if !InChain(cluster) {
        return NotFound, ZeroSlot;
      }
      return Ok, Slots(disk[cluster])[place];
    }

    lemma SlotPosition(cs: seq<nat>, index: nat)
      requires Valid() && Holds(cs)
      ensures Per() > 0 && (index < |All(cs)| <==> Hop(index, Per()) < |cs|)
      ensures index < |All(cs)| ==>
                && cs[Hop(index, Per())] < disk.Length
                && Place(index, Per()) < |Slots(disk[cs[Hop(index, Per())]])|
                && All(cs)[index] == Slots(disk[cs[Hop(index, Per())]])[Place(index, Per())]
    {
      ChainOnDisk(cs);
      IndexInside(index, Per(), |cs|);
      hide DirSlots, IsChain, Hop, Place, Slots;
      var hop, place := Hop(index, Per()), Place(index, Per());
      if hop < |cs| {
        SlotsPer(cs[hop]);
        DirSlotAt(disk[..], size, cs, hop, place);
      }
    }

    lemma SlotsPer(c: nat)
      requires Valid() && c < disk.Length
      ensures |Slots(disk[c])| == Per()
    {
    }

    method WriteSlot(first: U32, index: nat, s: Slot, ghost cs: seq<nat>) returns (r: Result)
      requires Valid() && Holds(cs) && cs[0] == first
      requires index < |All(cs)|
      modifies disk
      ensures Valid() && r == Ok
      ensures All(cs) == old(All(cs))[index := s]
      ensures forall c | 0 <= c < disk.Length && c !in cs :: disk[c] == old(disk[c])
    {
      var cluster, place := ClusterForIndex(first, index, cs);
      ChainOnDisk(cs);
      IndexInside(index, Per(), |cs|);
      hide DirSlots, IsChain, Hop, Place, Slots, PutSlot;
      ghost var i := Hop(index, Per());
      DirSlotPut(disk[..], size, cs, i, place, s);
      ghost var before := disk[..];
      assert cs[i] in cs;
      disk[cluster] := PutSlot(disk[cluster], place, s);
      assert disk[..] == before[cs[i] := PutSlot(before[cs[i]], place, s)];
      r := Ok;
    }

    /** `find_entry_in_cluster_dir`: succeeds exactly on the directory's names. */
    method FindEntry(first: U32, name: Str, ghost cs: seq<nat>, ghost view: View) returns (r: Result, ref: EntryRef)
      requires Valid() && Holds(cs) && cs[0] == first && ValidDirectory(All(cs), view)
      ensures r == if Fold(name) in view then Ok else NotFound
      ensures r == Ok ==> ref == RefOf(view[Fold(name)])
    {
      hide ValidDirectory, NotBefore, Scan, HasLongName, Slots, DirSlots, ValidDisk, Base;
      ref := EntryRef(0, 0, ZeroSlot);
      ghost var all := All(cs);
      var lfn := new LfnReader();
      ghost var st := lfn.View();
      var cluster := first;
      var base := 0;
      ghost var n: nat := 0;
      ScanStart(all, view, name, st);
      StepChain(cs, 0);
      while InChain(cluster)
        invariant n <= |cs| && base == Base(n, Per()) <= |all| && (if n < |cs| then cluster == cs[n] && InChain(cs[n])
                  else !InChain(cluster))
        invariant n == |cs| ==> base == |all|
        invariant lfn.Valid() && fresh(lfn) && fresh(lfn.name) && lfn.View() == Scan(all, st, base)
        invariant NotBefore(all, view, name, base)
        decreases |cs| - n
      {
        StepChain(cs, n);
        var outcome := ScanCluster(Slots(disk[cluster]), base, name, lfn, all, view, st);
        match outcome {
          case Ended =>
            return NotFound, ref;
          case Matched(i) =>
            ref := MakeRef(first, base + i, lfn, cs, view, Fold(name));
            return Ok, ref;
          case Continue =>
        }
        base := base + Per();
        cluster := table.NextCluster(cluster);
        n := n + 1;
      }
      NotAfterEnd(all, view, name, base);
      r := NotFound;
    }

    lemma StepLink(cs: seq<nat>, n: nat)
      requires Valid() && Holds(cs) && n < |cs|
      ensures 2 <= cs[n] < disk.Length && InChain(cs[n]) && (n + 1 < |cs| ==> InChain(cs[n + 1]))
      ensures if n + 1 < |cs| then Next(table.View(), cs[n]) == cs[n + 1] else Next(table.View(), cs[n]) >= END_OF_CHAIN
    {
      assert LinkAt(table.View(), cs, n);
      assert n + 1 < |cs| ==> LinkAt(table.View(), cs, n + 1);
    }

    /** What one link of a chain walk needs to know about cluster `n`. */
    lemma StepChain(cs: seq<nat>, n: nat)
      requires Valid() && Holds(cs) && n < |cs|
      ensures cs[n] < disk.Length && InChain(cs[n]) && (n + 1 < |cs| ==> InChain(cs[n + 1]))
      ensures if n + 1 < |cs| then Next(table.View(), cs[n]) == cs[n + 1] else Next(table.View(), cs[n]) >= END_OF_CHAIN
      ensures Base(n, Per()) + Per() == Base(n + 1, Per()) <= |All(cs)|
      ensures |Slots(disk[cs[n]])| == Per()
      ensures n + 1 == |cs| ==> Base(n + 1, Per()) == |All(cs)|
      ensures All(cs)[Base(n, Per())..Base(n, Per()) + Per()] == Slots(disk[cs[n]])
    {
      ChainOnDisk(cs);
      assert LinkAt(table.View(), cs, n);
      assert n + 1 < |cs| ==> LinkAt(table.View(), cs, n + 1);
      Window(disk[..], size, cs, n);
      assert (n + 1) * Per() == n * Per() + Per();
    }

    lemma ScanStart(all: seq<Slot>, view: View, name: Str, st: LfnState)
      ensures Scan(all, st, 0) == st && NotBefore(all, view, name, 0) && Base(0, Per()) == 0
    {
    }

    method MakeRef(first: U32, index: nat, lfn: LfnReader, ghost cs: seq<nat>, ghost view: View, ghost k: Str)
      returns (ref: EntryRef)
      requires Valid() && Holds(cs) && cs[0] == first && ValidDirectory(All(cs), view)
      requires k in view && view[k].Last() == index < |All(cs)|
      requires lfn.Valid() && (HasLongName(All(cs)[index], lfn.View()) <==> view[k].lfns > 0)
      ensures ref == RefOf(view[k])
    {
      hide ValidDirectory, HasLongName;
      var r, entry := ReadSlot(first, index, cs);
      LastSlot(All(cs), view, k);
      var lfns := 0;
      if HasLongName(entry, lfn.View()) {
        lfns := CountLfn(first, index, cs, view, k);
      }
      ref := EntryRef(index, lfns, entry);
    }

    /** The backward count of long-name slots finds exactly the name's own pieces. */
    method CountLfn(first: U32, index: nat, ghost cs: seq<nat>, ghost view: View, ghost k: Str) returns (lfns: nat)
      requires Valid() && Holds(cs) && cs[0] == first && ValidDirectory(All(cs), view)
      requires k in view && view[k].Last() == index
      ensures lfns == view[k].lfns
    {
      hide *;
      SlotBeforeGroup(All(cs), view, k);
      LastSlot(All(cs), view, k);
      lfns := 0;
      var j := index;
      while j != 0
        invariant j + lfns == index && view[k].start <= j
      {
        var r, previous := ReadSlot(first, j - 1, cs);
        if r != Ok || !IsLfn(previous) {
          break;
        }
        lfns := lfns + 1;
        j := j - 1;
      }
    }

    // ------------------------------------------------------ short names

    method ShortNameExists(first: U32, raw: Raw, ignore: Option<Raw>, ghost cs: seq<nat>, ghost view: View)
      returns (exists': bool)
      requires Valid() && Holds(cs) && cs[0] == first && ValidDirectory(All(cs), view)
      ensures exists' == (raw in UsedNames(view) && ignore != Some(raw))
    {
      ChainNonEmpty(cs);
      hide *;
      ghost var all := All(cs);
      StepChain(cs, 0);
      NoHitStart(all, raw, ignore);
      var cluster := first;
      ghost var n: nat := 0;
      while InChain(cluster)
        invariant n <= |cs| && Base(n, Per()) <= |all| && (if n < |cs| then cluster == cs[n] && InChain(cs[n])
                  else !InChain(cluster))
        invariant n == |cs| ==> Base(n, Per()) == |all|
        invariant NoHit(all, raw, ignore, Base(n, Per()))
        decreases |cs| - n
      {
        StepChain(cs, n);
        EndIsOut();
        var outcome := ScanShorts(Slots(disk[cluster]), raw, ignore, Base(n, Per()), all, view);
        if outcome.Some? {
          return outcome.value;
        }
        cluster := table.NextCluster(cluster);
        n := n + 1;
      }
      NoHitMeans(all, view, raw, ignore, Base(n, Per()));
      exists' := false;
    }

    lemma ChainNonEmpty(cs: seq<nat>)
      requires Valid() && Holds(cs)
      ensures |cs| > 0
    {
    }

    // ---------------------------------------------------------- emptiness

    /** `directory_is_empty`: no name other than the two dots. */
    method DirectoryIsEmpty(first: U32, ghost cs: seq<nat>, ghost view: View) returns (empty: bool)
      requires Valid() && Holds(cs) && cs[0] == first && ValidDirectory(All(cs), view)
      ensures empty == (view.Keys <= {[DOT], [DOT, DOT]})
    {
      ChainNonEmpty(cs);
      hide *;
      ghost var all := All(cs);
      StepChain(cs, 0);
      NoneNamedStart(all);
      var cluster := first;
      ghost var n: nat := 0;
      while InChain(cluster)
        invariant n <= |cs| && Base(n, Per()) <= |all| && (if n < |cs| then cluster == cs[n] && InChain(cs[n])
                  else !InChain(cluster))
        invariant n == |cs| ==> Base(n, Per()) == |all|
        invariant NoneNamed(all, Base(n, Per()))
        decreases |cs| - n
      {
        StepChain(cs, n);
        EndIsOut();
        var outcome := ScanNamed(Slots(disk[cluster]), Base(n, Per()), all, view);
        if outcome.Some? {
          return outcome.value;
        }
        cluster := table.NextCluster(cluster);
        n := n + 1;
      }
      NoneNamedMeans(all, view, Base(n, Per()));
      empty := true;
    }

    // --------------------------------------------------------- free runs

    /** The scan of `find_free_entry_in_cluster_dir`: the first run of `needed` free slots, or
        the run the directory ends with. */
    method FindRun(first: U32, needed: nat, ghost cs: seq<nat>) returns (found: bool, start: nat)
      requires Valid() && Holds(cs) && cs[0] == first && needed > 0
      ensures start <= |All(cs)| && FreeFrom(All(cs), start, if found then start + needed else |All(cs)|)
      ensures found <==> HasRun(All(cs), needed)
      ensures !found ==> |All(cs)| < start + needed
    {
      hide Slots, DirSlots, ValidDisk, HasRun, FreeFrom, NoRunBefore, Base;
      ghost var all := All(cs);
      StepChain(cs, 0);
      var cluster := first;
      var base, run := 0, Run(0, 0);
      NoRunYet(all, needed);
      ghost var n: nat := 0;
      while true
        invariant n < |cs| && cluster == cs[n] && base == Base(n, Per()) <= |all|
        invariant RunUpTo(all, needed, run, base)
        decreases |cs| - n
      {
        StepChain(cs, n);
        found, run := ScanRun(Slots(disk[cluster]), base, needed, run, all);
        if found {
          return true, run.start;
        }
        base := base + Per();
        var next := table.NextCluster(cluster);
        if next >= END_OF_CHAIN {
          break;
        }
        cluster := next;
        n := n + 1;
      }
      NoRunMeans(all, needed);
      found, start := false, if run.count != 0 then run.start else base;
    }

    method ScanRun(entries: seq<Slot>, base: nat, needed: nat, run: Run, ghost all: seq<Slot>)
      returns (found: bool, run': Run)
      requires base + |entries| <= |all| && all[base..base + |entries|] == entries && needed > 0
      requires RunUpTo(all, needed, run, base)
      ensures if found then run'.start + needed <= |all| && FreeFrom(all, run'.start, run'.start + needed)
              && HasRun(all, needed)
              else RunUpTo(all, needed, run', base + |entries|)
    {
      hide FreeFrom, NoRunBefore, HasRun, IsFreeSlot;
      run' := run;
      for i := 0 to |entries|
        invariant RunUpTo(all, needed, run', base + i)
      {
        assert entries[i] == all[base + i];
        if IsFreeSlot(entries[i]) {
          ghost var start := base + i - run'.count;
          run' := Run(if run'.count == 0 then base + i else run'.start, run'.count + 1);
          RunGrows(all, start, needed, base + i);
          if run'.count >= needed {
            return true, run';
          }
        } else {
          run' := Run(run'.start, 0);
          RunBroken(all, needed, base + i);
        }
      }
      found := false;
    }

    // ------------------------------------------------------------ spans

    method WriteEntrySpan(first: U32, start: nat, entries: seq<Slot>, ghost cs: seq<nat>) returns (r: Result)
      requires Valid() && Holds(cs) && cs[0] == first
      requires start + |entries| <= |All(cs)|
      modifies disk
      ensures Valid() && r == Ok
      ensures All(cs) == Overwrite(old(All(cs)), start, entries)
      ensures forall c | 0 <= c < disk.Length && c !in cs :: disk[c] == old(disk[c])
    {
      hide DirSlots, ValidDisk;
      ghost var all := All(cs);
      for i := 0 to |entries|
        invariant Valid() && |All(cs)| == |all|
        invariant All(cs) == Overwrite(all, start, entries[..i])
        invariant forall c | 0 <= c < disk.Length && c !in cs :: disk[c] == old(disk[c])
      {
        r := WriteSlot(first, start + i, entries[i], cs);
        OverwriteStep(all, start, entries, i);
      }
      assert entries[..|entries|] == entries;
      r := Ok;
    }

    method MarkRangeDeleted(first: U32, start: nat, count: nat, ghost cs: seq<nat>) returns (r: Result)
      requires Valid() && Holds(cs) && cs[0] == first
      requires start + count <= |All(cs)|
      modifies disk
      ensures Valid() && r == Ok
      ensures All(cs) == MarkDeleted(old(All(cs)), start, count)
      ensures forall c | 0 <= c < disk.Length && c !in cs :: disk[c] == old(disk[c])
    {
      hide DirSlots, ValidDisk;
      ghost var all := All(cs);
      for i := 0 to count
        invariant Valid() && All(cs) == MarkDeleted(all, start, i)
        invariant forall c | 0 <= c < disk.Length && c !in cs :: disk[c] == old(disk[c])
      {
        var read, entry := ReadSlot(first, start + i, cs);
        r := WriteSlot(first, start + i, Deleted(entry), cs);
        assert MarkDeleted(all, start, i + 1) == MarkDeleted(all, start, i)[start + i := Deleted(all[start + i])];
      }
      r := Ok;
    }
  }

  ghost function RefOf(g: Group): EntryRef {
    EntryRef(g.Last(), g.lfns, g.entry)
  }

  lemma OverwriteStep(all: seq<Slot>, start: nat, entries: seq<Slot>, i: nat)
    requires start + |entries| <= |all| && i < |entries|
    ensures Overwrite(all, start, entries[..i])[start + i := entries[i]] == Overwrite(all, start, entries[..i + 1])
  {
  }

  // ------------------------------------------------------- what scans mean

  ghost predicate NoHit(all: seq<Slot>, raw: Raw, ignore: Option<Raw>, p: nat)
    requires p <= |all|
  {
    forall q: nat | q < p :: !IsEnd(all[q]) &&
      (IsFreeSlot(all[q]) || IsLfn(all[q]) || HasVolumeBit(all[q]) || RawName(all[q]) != raw || ignore == Some(raw))
  }

  lemma NoHitStart(all: seq<Slot>, raw: Raw, ignore: Option<Raw>)
    ensures NoHit(all, raw, ignore, 0) && forall per: nat :: Base(0, per) == 0
  {
  }

  lemma EndIsOut()
    ensures forall c: nat | c >= END_OF_CHAIN :: !InChain(c)
  {
  }

  /** Comparing the short names of one cluster; a decision stops the walk. */
  method ScanShorts(entries: seq<Slot>, raw: Raw, ignore: Option<Raw>, ghost base: nat, ghost all: seq<Slot>,
                    ghost view: View)
    returns (o: Option<bool>)
    requires base + |entries| <= |all| && all[base..base + |entries|] == entries
    requires ValidDirectory(all, view) && NoHit(all, raw, ignore, base)
    ensures o.Some? ==> o.value == (raw in UsedNames(view) && ignore != Some(raw))
    ensures o.None? ==> NoHit(all, raw, ignore, base + |entries|)
  {
    hide ValidDirectory, UsedNames, Attributes, RawName;
    for i := 0 to |entries|
      invariant NoHit(all, raw, ignore, base + i)
    {
      assert entries[i] == all[base + i];
      if IsEnd(entries[i]) {
        NoHitMeans(all, view, raw, ignore, base + i);
        return Some(false);
      }
      if IsDeleted(entries[i]) || IsLfn(entries[i]) || HasVolumeBit(entries[i]) || ignore == Some(RawName(entries[i])) {
        continue;
      }
      if RawName(entries[i]) == raw {
        HitMeans(all, view, raw, base + i);
        return Some(true);
      }
    }
    o := None;
  }

  method ScanNamed(entries: seq<Slot>, ghost base: nat, ghost all: seq<Slot>, ghost view: View)
                   returns (o: Option<bool>)
    requires base + |entries| <= |all| && all[base..base + |entries|] == entries
    requires ValidDirectory(all, view) && NoneNamed(all, base)
    ensures o.Some? ==> o.value == (view.Keys <= {[DOT], [DOT, DOT]})
    ensures o.None? ==> NoneNamed(all, base + |entries|)
  {
    hide ValidDirectory, Attributes;
    for i := 0 to |entries|
      invariant NoneNamed(all, base + i)
    {
      assert entries[i] == all[base + i];
      if IsEnd(entries[i]) {
        NoneNamedMeans(all, view, base + i);
        return Some(true);
      }
      if IsDeleted(entries[i]) || IsLfn(entries[i]) || HasVolumeBit(entries[i]) || IsSpecial(entries[i]) {
        continue;
      }
      NamedMeans(all, view, base + i);
      return Some(false);
    }
    o := None;
  }

  lemma HitMeans(all: seq<Slot>, view: View, raw: Raw, p: nat)
    requires ValidDirectory(all, view) && p < |all|
    requires !IsFreeSlot(all[p]) && !IsLfn(all[p]) && RawName(all[p]) == raw
    ensures raw in UsedNames(view)
  {
    hide ValidDirectory;
    var k := EntryOfSlot(all, view, p);
    LastSlot(all, view, k);
  }

  lemma NoHitMeans(all: seq<Slot>, view: View, raw: Raw, ignore: Option<Raw>, p: nat)
    requires ValidDirectory(all, view) && p <= |all| && (p < |all| ==> IsEnd(all[p]))
    requires NoHit(all, raw, ignore, p)
    ensures !(raw in UsedNames(view) && ignore != Some(raw))
  {
    hide AllEntered, AllDistinct, AllCovered;
    forall k | k in view ensures RawName(view[k].entry) != raw || ignore == Some(raw) {
      LastSlot(all, view, k);
    }
  }

  ghost predicate NoneNamed(all: seq<Slot>, p: nat)
    requires p <= |all|
  {
    forall q: nat | q < p :: !IsEnd(all[q]) &&
      (IsFreeSlot(all[q]) || IsLfn(all[q]) || HasVolumeBit(all[q]) || IsSpecial(all[q]))
  }

  lemma NoneNamedStart(all: seq<Slot>)
    ensures NoneNamed(all, 0) && forall per: nat :: Base(0, per) == 0
  {
  }

  lemma NamedMeans(all: seq<Slot>, view: View, p: nat)
    requires ValidDirectory(all, view) && p < |all|
    requires !IsFreeSlot(all[p]) && !IsLfn(all[p]) && !IsSpecial(all[p])
    ensures !(view.Keys <= {[DOT], [DOT, DOT]})
  {
    hide AllDistinct, AllCovered, EndsOnce, GroupAt, Fold;
    var k := EntryOfSlot(all, view, p);
    LastSlot(all, view, k);
    assert Entered(all, view, k);
  }

  lemma NoneNamedMeans(all: seq<Slot>, view: View, p: nat)
    requires ValidDirectory(all, view) && p <= |all| && (p < |all| ==> IsEnd(all[p]))
    requires NoneNamed(all, p)
    ensures view.Keys <= {[DOT], [DOT, DOT]}
  {
    hide AllDistinct, AllCovered, GroupAt, Fold;
    forall k | k in view ensures k == [DOT] || k == [DOT, DOT] {
      LastSlot(all, view, k);
      assert Entered(all, view, k);
    }
  }

  ghost predicate AllFree(all: seq<Slot>, a: nat, b: nat)
    requires a <= b <= |all|
  {
    forall p: nat | a <= p < b :: IsFreeSlot(all[p])
  }

  /** A maximal-to-the-left free stretch. */
  ghost predicate FreeFrom(all: seq<Slot>, a: nat, b: nat) {
    && a <= b <= |all| && AllFree(all, a, b)
    && (a > 0 ==> !IsFreeSlot(all[a - 1]))
  }

  ghost predicate RunAt(all: seq<Slot>, a: nat, needed: nat) {
    a + needed <= |all| && AllFree(all, a, a + needed)
  }

  ghost predicate HasRun(all: seq<Slot>, needed: nat) {
    exists a: nat :: RunAt(all, a, needed)
  }

  ghost predicate NoRunBefore(all: seq<Slot>, needed: nat, p: nat) {
    forall a: nat | a + needed <= p :: !RunAt(all, a, needed)
  }

  /** The scan's running counters. */
  datatype Run = Run(start: nat, count: nat)

  ghost predicate RunUpTo(all: seq<Slot>, needed: nat, run: Run, p: nat) {
    && p <= |all| && run.count < needed && run.count <= p
    && (run.count > 0 ==> run.start == p - run.count)
    && FreeFrom(all, p - run.count, p) && NoRunBefore(all, needed, p)
  }

  lemma NoRunYet(all: seq<Slot>, needed: nat)
    requires needed > 0
    ensures FreeFrom(all, 0, 0) && NoRunBefore(all, needed, 0) && forall per: nat :: Base(0, per) == 0
  {
  }

  lemma RunGrows(all: seq<Slot>, a: nat, needed: nat, p: nat)
    requires p < |all| && FreeFrom(all, a, p) && IsFreeSlot(all[p]) && p - a < needed
    requires NoRunBefore(all, needed, p)
    ensures FreeFrom(all, a, p + 1)
    ensures p + 1 - a < needed ==> NoRunBefore(all, needed, p + 1)
    ensures p + 1 - a == needed ==> HasRun(all, needed)
  {
    if p + 1 - a == needed {
      assert RunAt(all, a, needed);
    } else {
      forall b: nat | b + needed <= p + 1 ensures !RunAt(all, b, needed) {
        if b + needed == p + 1 {
          assert !IsFreeSlot(all[a - 1]);
        }
      }
    }
  }

  lemma RunBroken(all: seq<Slot>, needed: nat, p: nat)
    requires p < |all| && !IsFreeSlot(all[p]) && needed > 0 && NoRunBefore(all, needed, p)
    ensures FreeFrom(all, p + 1, p + 1) && NoRunBefore(all, needed, p + 1)
  {
    forall b: nat | b + needed <= p + 1 ensures !RunAt(all, b, needed) {
      if b + needed == p + 1 {
        assert !IsFreeSlot(all[p]);
      }
    }
  }

  lemma NoRunMeans(all: seq<Slot>, needed: nat)
    ensures NoRunBefore(all, needed, |all|) <==> !HasRun(all, needed)
  {
    if !NoRunBefore(all, needed, |all|) {
      var a: nat :| a + needed <= |all| && RunAt(all, a, needed);
    }
  }
}
