/** Growing chains and moving file bytes through them. */
module FatData {
  import opened Bytes
  import opened FatTables
  import opened FatBlocks
  import opened FatStore

  // ----------------------------------------------------------- counting

  function SetOf(cs: seq<nat>): set<nat> {
    set c | c in cs
  }

  lemma {:induction false} SetOfSize(cs: seq<nat>)
    ensures |SetOf(cs)| <= |cs|
    ensures NoDuplicates(cs) ==> |SetOf(cs)| == |cs|
    decreases |cs|
  {
    if cs != [] {
      var n := |cs| - 1;
      SetOfSize(cs[..n]);
      assert SetOf(cs) == SetOf(cs[..n]) + {cs[n]};
      assert NoDuplicates(cs) ==> NoDuplicates(cs[..n]) && cs[n] !in cs[..n];
    }
  }

  lemma SubsetSmaller<T>(a: set<T>, b: set<T>)
    requires a <= b
    ensures |a| <= |b|
  {
    assert b == a + (b - a);
  }

  /** `cs` is a chain of the new table made only of clusters that were free in the old one. */
  ghost predicate Grown(fat: Table, fat': Table, cs: seq<nat>) {
    && AgreeOff(fat, fat', cs)
    && (cs == [] || IsChain(fat', cs))
    && (forall c | c in cs :: IsFree(fat, c))
    && FreeClusters(fat') == FreeClusters(fat) - SetOf(cs)
  }

  lemma GrownStep(fat: Table, mid: Table, cs: seq<nat>, c: nat)
    requires |fat| <= MAX_CLUSTERS && Grown(fat, mid, cs) && IsFree(mid, c)
    ensures cs == [] ==> Grown(fat, Set(mid, c, END_OF_CHAIN), cs + [c])
    ensures cs != [] ==> Grown(fat, Set(Set(mid, c, END_OF_CHAIN), cs[|cs| - 1], c), cs + [c])
  {
    assert c in FreeClusters(mid) && c in FreeClusters(fat);
    if cs == [] {
      var fat' := Set(mid, c, END_OF_CHAIN);
      assert cs + [c] == [c];
      assert LinkAt(fat', [c], 0);
    } else {
      hide IsChain;
      GrowValid(mid, cs, c);
      assert SetOf(cs + [c]) == SetOf(cs) + {c};
    }
  }

  lemma GrownSize(fat: Table, fat': Table, cs: seq<nat>)
    requires |fat| <= MAX_CLUSTERS && Grown(fat, fat', cs)
    ensures |cs| <= |FreeClusters(fat)|
    ensures FreeClusters(fat') == {} ==> |FreeClusters(fat)| == |cs|
  {
    if cs != [] { ChainAcyclic(fat', cs); }
    SetOfSize(cs);
    forall c | c in cs ensures c in FreeClusters(fat) {
      assert IsFree(fat, c);
    }
    SubsetSmaller(SetOf(cs), FreeClusters(fat));
    if FreeClusters(fat') == {} {
      forall c | c in FreeClusters(fat) ensures c in SetOf(cs) {
        assert c !in FreeClusters(fat) - SetOf(cs);
      }
      SubsetSmaller(FreeClusters(fat), SetOf(cs));
    }
  }

  /** Clearing what was grown restores the table exactly. */
  lemma GrownUndone(fat: Table, fat': Table, cs: seq<nat>)
    requires |fat| <= MAX_CLUSTERS && Grown(fat, fat', cs) && cs != []
    ensures IsDataCluster(fat', cs[0]) && FreeWalk(fat', cs[0]) == fat
  {
    FreeWalkClearsChain(fat', cs);
  }

  // -------------------------------------------------------- allocation

  /** The new clusters read as zeros, everything else on disk is as before. */
  ghost predicate Zeroed(disk: Disk, disk': Disk, cs: seq<nat>, size: nat) {
    && |disk'| == |disk|
    && forall c | 0 <= c < |disk| :: disk'[c] == if c in cs then Zeros(size) else disk[c]
  }

  method ZeroCluster(store: Store, c: U32)
    requires store.Valid() && IsDataCluster(store.table.View(), c)
    modifies store.disk
    ensures store.Valid()
    ensures store.disk[..] == old(store.disk[..])[c := Zeros(store.size)]
  {
    store.disk[c] := Zeros(store.size);
  }

  method LinkClusters(store: Store, count: nat) returns (r: Result, first: U32, ghost cs: seq<nat>)
    requires store.Valid() && count > 0
    modifies store.table.entries
    ensures store.Valid()
    ensures r == if |FreeClusters(old(store.table.View()))| < count then NoSpace else Ok
    ensures r == NoSpace ==> store.table.View() == old(store.table.View())
    ensures r == Ok ==> |cs| == count && cs[0] == first && Grown(old(store.table.View()), store.table.View(), cs)
  {
    var last: U32 := 0;
    first, cs := 0, [];
    ghost var fat := store.table.View();
    hide Grown, IsChain, FreeClusters;
    NothingGrown(fat);
    for i := 0 to count
      invariant store.Valid() && |cs| == i
      invariant Grown(fat, store.table.View(), cs)
      invariant cs == [] ==> first == 0 && last == 0
      invariant cs != [] ==> first == cs[0] && last == cs[|cs| - 1] && last != 0
    {
      var cluster := store.table.FindFreeCluster();
      GrownSize(fat, store.table.View(), cs);
      if cluster == 0 {
        if cs != [] { GrownUndone(fat, store.table.View(), cs); }
        store.table.FreeClusterChain(first);
        NothingUndone(fat, store.table.View(), cs);
        return NoSpace, 0, [];
      }
      GrownStep(fat, store.table.View(), cs, cluster);
      store.table.SetCluster(cluster, END_OF_CHAIN);
      if last != 0 {
        store.table.SetCluster(last, cluster);
      } else {
        first := cluster;
      }
      last := cluster;
      cs := cs + [cluster as nat];
    }
    GrownSize(fat, store.table.View(), cs);
    r := Ok;
  }

  lemma NothingGrown(fat: Table)
    ensures Grown(fat, fat, [])
  {
  }

  lemma NothingUndone(fat: Table, mid: Table, cs: seq<nat>)
    ensures Grown(fat, mid, []) ==> FreeWalk(mid, 0) == fat
  {
  }

  /** `allocate_cluster_chain`: a zeroed chain of free clusters, or the table exactly as found. */
  method AllocateChain(store: Store, count: nat) returns (r: Result, first: U32, ghost cs: seq<nat>)
    requires store.Valid()
    modifies store.table.entries, store.disk
    ensures store.Valid()
    ensures r == if |FreeClusters(old(store.table.View()))| < count then NoSpace else Ok
    ensures r == NoSpace ==> store.table.View() == old(store.table.View()) && store.disk[..] == old(store.disk[..])
    ensures r == Ok ==>
              && |cs| == count && first == (if cs == [] then 0 else cs[0])
              && Grown(old(store.table.View()), store.table.View(), cs)
              && Zeroed(old(store.disk[..]), store.disk[..], cs, store.size)
  {
    NothingGrown(store.table.View());
    if count == 0 {
      return Ok, 0, [];
    }
    r, first, cs := LinkClusters(store, count);
    if r != Ok {
      return;
    }
    ZeroChain(store, first, count, cs);
  }

  /** The zeroing walk after linking. */
  method ZeroChain(store: Store, first: U32, count: nat, ghost cs: seq<nat>)
    requires store.Valid() && count == |cs| > 0
    requires IsChain(store.table.View(), cs) && cs[0] == first
    modifies store.disk
    ensures store.Valid()
    ensures Zeroed(old(store.disk[..]), store.disk[..], cs, store.size)
  {
    hide IsChain, DirSlots;
    ghost var before := store.disk[..];
    var last := first;
    var i := 0;
    store.StepLink(cs, 0);
    while i < count && InChain(last)
      invariant store.Valid() && i < count && last == cs[i] && InChain(last)
      invariant Zeroed(before, store.disk[..], cs[..i], store.size)
      decreases count - i
    {
      store.StepLink(cs, i);
      ZeroCluster(store, last);
      ZeroedStep(before, store.disk[..], cs, i, store.size);
      var next := store.table.NextCluster(last);
      if next >= END_OF_CHAIN {
        i := i + 1;
        break;
      }
      last := next;
      i := i + 1;
    }
    assert cs[..i] == cs;
  }

  lemma ZeroedStep(before: Disk, now: Disk, cs: seq<nat>, i: nat, size: nat)
    requires i < |cs| && |now| == |before|
    requires forall c | 0 <= c < |before| :: now[c] == if c in cs[..i] || c == cs[i] then Zeros(size) else before[c]
    ensures Zeroed(before, now, cs[..i + 1], size)
  {
    assert cs[..i + 1] == cs[..i] + [cs[i]];
  }

  /** Chain `cs'` is `cs` with formerly free, zeroed clusters behind it. */
  ghost predicate Extended(fat: Table, fat': Table, disk: Disk, disk': Disk, cs: seq<nat>, cs': seq<nat>, size: nat) {
    && cs <= cs'
    && AgreeOff(fat, fat', cs')
    && (cs' == [] || IsChain(fat', cs'))
    && (forall c | c in cs'[|cs|..] :: IsFree(fat, c))
    && FreeClusters(fat') == FreeClusters(fat) - SetOf(cs'[|cs|..])
    && Zeroed(disk, disk', cs'[|cs|..], size)
  }

  lemma ExtendedStart(fat: Table, disk: Disk, cs: seq<nat>, size: nat)
    requires cs == [] || IsChain(fat, cs)
    ensures Extended(fat, fat, disk, disk, cs, cs, size)
  {
    assert cs[|cs|..] == [];
  }

  lemma ExtendedAll(fat: Table, fat': Table, disk: Disk, disk': Disk, cs': seq<nat>, size: nat)
    requires Grown(fat, fat', cs') && Zeroed(disk, disk', cs', size)
    ensures Extended(fat, fat', disk, disk', [], cs', size)
  {
    assert cs'[0..] == cs';
  }

  lemma ExtendedStep(fat: Table, mid: Table, fat': Table, disk: Disk, disk1: Disk, disk': Disk,
                     cs: seq<nat>, cs1: seq<nat>, c: nat, size: nat)
    requires Extended(fat, mid, disk, disk1, cs, cs1, size) && cs1 != []
    requires IsFree(mid, c) && IsChain(fat', cs1 + [c]) && AgreeOff(mid, fat', cs1 + [c])
    requires FreeClusters(fat') == FreeClusters(mid) - {c}
    requires |disk'| == |disk1| && forall d | 0 <= d < |disk1| :: disk'[d] == if d == c then Zeros(size) else disk1[d]
    ensures Extended(fat, fat', disk, disk', cs, cs1 + [c], size)
  {
    hide IsChain;
    var added := cs1[|cs|..];
    assert (cs1 + [c])[|cs|..] == added + [c];
    assert SetOf(added + [c]) == SetOf(added) + {c};
    assert c in FreeClusters(mid) && c in FreeClusters(fat);
  }

  lemma ExtendedSize(fat: Table, fat': Table, disk: Disk, disk': Disk, cs: seq<nat>, cs': seq<nat>, size: nat)
    requires |fat| <= MAX_CLUSTERS && Extended(fat, fat', disk, disk', cs, cs', size)
    ensures |cs'| - |cs| <= |FreeClusters(fat)|
    ensures FreeClusters(fat') == {} ==> |FreeClusters(fat)| == |cs'| - |cs|
  {
    var added := cs'[|cs|..];
    if cs' != [] { ChainAcyclic(fat', cs'); }
    assert NoDuplicates(added) by {
      forall i: nat, j: nat | i < j < |added| ensures added[i] != added[j] {
        assert cs'[|cs| + i] != cs'[|cs| + j];
      }
    }
    SetOfSize(added);
    forall c | c in added ensures c in FreeClusters(fat) {
      assert IsFree(fat, c);
    }
    SubsetSmaller(SetOf(added), FreeClusters(fat));
    if FreeClusters(fat') == {} {
      forall c | c in FreeClusters(fat) ensures c in SetOf(added) {
        assert c !in FreeClusters(fat) - SetOf(added);
      }
      SubsetSmaller(FreeClusters(fat), SetOf(added));
    }
  }

  /** What a failed attempt to lengthen `cs` leaves: nothing at all for a new chain, while an old one
      keeps every cluster there was. */
  ghost predicate RanOut(fat: Table, fat': Table, disk: Disk, disk': Disk, cs: seq<nat>, cs': seq<nat>) {
    if cs == [] then fat' == fat && disk' == disk && cs' == []
    else FreeClusters(fat') == {} && |cs'| == |cs| + |FreeClusters(fat)|
  }

  lemma RanOutNew(fat: Table, disk: Disk)
    ensures RanOut(fat, fat, disk, disk, [], [])
  {
  }

  lemma RanOutOld(fat: Table, fat': Table, disk: Disk, disk': Disk, cs: seq<nat>, cs': seq<nat>)
    requires FreeClusters(fat') == {} && |cs'| == |cs| + |FreeClusters(fat)|
    ensures cs != [] ==> RanOut(fat, fat', disk, disk', cs, cs')
  {
    hide FreeClusters;
  }

  /** `ensure_cluster_chain_length`: grows by `required - current` clusters.  Out of space, a new
      chain is undone while an existing one keeps what it already gained. */
  method EnsureLength(store: Store, first: U32, current: nat, required: nat, ghost cs: seq<nat>)
    returns (r: Result, first': U32, ghost cs': seq<nat>)
    requires store.Valid()
    requires if current == 0 then cs == [] else IsChain(store.table.View(), cs) && cs[0] == first
    modifies store.table.entries, store.disk
    ensures store.Valid()
    ensures r == if |FreeClusters(old(store.table.View()))| < required - current then NoSpace else Ok
    ensures Extended(old(store.table.View()), store.table.View(), old(store.disk[..]), store.disk[..], cs, cs',
            store.size)
    ensures r == Ok && required > current ==> |cs'| == |cs| + (required - current) && first' == cs'[0]
    ensures r == Ok && required <= current ==> cs' == cs && first' == first
    ensures r == NoSpace ==>
              RanOut(old(store.table.View()), store.table.View(), old(store.disk[..]), store.disk[..], cs, cs')
  {
    first', cs' := first, cs;
    ghost var fat, before := store.table.View(), store.disk[..];
    hide Grown, Extended, IsChain, FreeClusters, DirSlots, RanOut;
    RanOutNew(fat, before);
    ExtendedStart(fat, before, cs, store.size);
    if required <= current {
      return Ok, first, cs;
    }
    if current == 0 {
      r, first', cs' := AllocateChain(store, required);
      if r == Ok {
        ExtendedAll(fat, store.table.View(), before, store.disk[..], cs', store.size);
      } else {
        cs' := [];
      }
      return;
    }
    r, cs' := AppendClusters(store, first, required - current, cs);
    first' := first;
  }

  method AppendClusters(store: Store, first: U32, count: nat, ghost cs: seq<nat>)
                        returns (r: Result, ghost cs': seq<nat>)
    requires store.Valid() && IsChain(store.table.View(), cs) && cs[0] == first
    modifies store.table.entries, store.disk
    ensures store.Valid()
    ensures r == if |FreeClusters(old(store.table.View()))| < count then NoSpace else Ok
    ensures Extended(old(store.table.View()), store.table.View(), old(store.disk[..]), store.disk[..], cs, cs',
            store.size)
    ensures |cs'| > 0 && cs'[0] == first && (r == Ok ==> |cs'| == |cs| + count)
    ensures r == NoSpace ==>
              RanOut(old(store.table.View()), store.table.View(), old(store.disk[..]), store.disk[..], cs, cs')
  {
    cs' := cs;
    assert |cs| > 0;
    ghost var fat, before := store.table.View(), store.disk[..];
    hide Extended, IsChain, FreeClusters, DirSlots, RanOut;
    ExtendedStart(fat, before, cs, store.size);
    for i := 0 to count
      invariant store.Valid() && |cs'| == |cs| + i && cs'[0] == first
      invariant IsChain(store.table.View(), cs')
      invariant Extended(fat, store.table.View(), before, store.disk[..], cs, cs', store.size)
    {
      ExtendedSize(fat, store.table.View(), before, store.disk[..], cs, cs', store.size);
      ghost var mid, disk1 := store.table.View(), store.disk[..];
      var added: U32;
      r, added := store.table.AppendClusterToChain(first, cs');
      if r != Ok {
        RanOutOld(fat, store.table.View(), before, store.disk[..], cs, cs');
        return NoSpace, cs';
      }
      ZeroCluster(store, added);
      ExtendedStep(fat, mid, store.table.View(), before, disk1, store.disk[..], cs, cs', added, store.size);
      cs' := cs' + [added as nat];
    }
    ExtendedSize(fat, store.table.View(), before, store.disk[..], cs, cs', store.size);
    r := Ok;
  }

  // ------------------------------------------------------------ file bytes

  lemma SpliceMiddle(before: seq<Byte>, mid: seq<Byte>, after: seq<Byte>, offset: nat, data: seq<Byte>)
    requires offset + |data| <= |mid|
    ensures before + Splice(mid, offset, data) + after == Splice(before + mid + after, |before| + offset, data)
  {
  }

  lemma SpliceJoin(whole: seq<Byte>, start: nat, d1: seq<Byte>, d2: seq<Byte>)
    requires start + |d1| + |d2| <= |whole|
    ensures Splice(Splice(whole, start, d1), start + |d1|, d2) == Splice(whole, start, d1 + d2)
  {
  }

  /** Cluster `n` of a chain is bytes `n * size` up to `n * size + size` of the file. */
  lemma ByteWindow(disk: Disk, size: nat, cs: seq<nat>, n: nat)
    requires ValidDisk(disk, size) && ClustersOn(disk, cs) && n < |cs|
    ensures |ChainBytes(disk, cs)| == |cs| * size && n * size + size <= |cs| * size
    ensures ChainBytes(disk, cs)[n * size..n * size + size] == disk[cs[n]]
  {
    var blocks := Blocks(disk, cs);
    BlocksUniform(disk, size, cs);
    FlatPosition(blocks, size, n);
    FlatAround(blocks, n);
    assert blocks[n] == disk[cs[n]];
    hide Blocks, Flat, Uniform, ValidDisk;
    MiddleSlice(Flat(blocks[..n]), blocks[n], Flat(blocks[n + 1..]));
  }

  /** Writing inside one cluster splices the file's bytes. */
  lemma BytePut(disk: Disk, size: nat, cs: seq<nat>, n: nat, offset: nat, data: seq<Byte>)
    requires ValidDisk(disk, size) && ClustersOn(disk, cs) && NoDuplicates(cs)
    requires n < |cs| && offset + |data| <= size
    ensures |disk[cs[n]]| == size && n * size + offset + |data| <= |ChainBytes(disk, cs)|
    ensures ChainBytes(disk[cs[n] := Splice(disk[cs[n]], offset, data)], cs)
         == Splice(ChainBytes(disk, cs), n * size + offset, data)
  {
    var blocks := Blocks(disk, cs);
    var b := Splice(disk[cs[n]], offset, data);
    BlocksUniform(disk, size, cs);
    BlocksUpdate(disk, cs, n, b);
    FlatPosition(blocks, size, n);
    assert blocks[n] == disk[cs[n]];
    hide Blocks, Flat, Uniform, ValidDisk, Splice;
    FlatAround(blocks, n);
    FlatUpdate(blocks, n, b);
    SpliceMiddle(Flat(blocks[..n]), blocks[n], Flat(blocks[n + 1..]), offset, data);
  }

  /** The bytes a chain of the store holds. */
  ghost function Content(store: Store, cs: seq<nat>): seq<Byte>
    reads store.disk
  {
    ChainBytes(store.disk[..], cs)
  }

  method PutBytes(store: Store, cluster: nat, offset: nat, data: seq<Byte>, ghost cs: seq<nat>, ghost n: nat)
    requires store.Valid() && IsChain(store.table.View(), cs) && n < |cs| && cs[n] == cluster
    requires offset + |data| <= store.size
    modifies store.disk
    ensures store.Valid() && n * store.size + offset + |data| <= |old(Content(store, cs))|
    ensures Content(store, cs) == Splice(old(Content(store, cs)), n * store.size + offset, data)
    ensures forall c | 0 <= c < store.disk.Length && c !in cs :: store.disk[c] == old(store.disk[c])
  {
    store.ChainOnDisk(cs);
    hide IsChain, DirSlots, ChainBytes;
    ghost var before := store.disk[..];
    BytePut(before, store.size, cs, n, offset, data);
    assert cs[n] in cs;
    var buffer := store.disk[cluster];
    buffer := Splice(buffer, offset, data);
    store.disk[cluster] := buffer;
    assert store.disk[..] == before[cs[n] := Splice(before[cs[n]], offset, data)];
  }

  lemma FitsChain(start: nat, count: nat, size: nat, n: nat)
    requires size > 0 && count > 0 && start + count <= n * size
    ensures Hop(start, size) < n
    ensures start == Hop(start, size) * size + Place(start, size) && Place(start, size) < size
  {
    IndexInside(start, size, n);
  }

  /** `write_data_to_chain`: the file's bytes with `data` spliced in at `start`, cluster by
      cluster, whatever the offset and length. */
  method WriteDataToChain(store: Store, first: U32, start: nat, data: seq<Byte>, ghost cs: seq<nat>) returns (r: Result)
    requires store.Valid()
    requires data != [] ==> IsChain(store.table.View(), cs) && cs[0] == first
    requires start + |data| <= |Content(store, cs)|
    modifies store.disk
    ensures store.Valid() && r == Ok
    ensures Content(store, cs) == Splice(old(Content(store, cs)), start, data)
    ensures forall c | 0 <= c < store.disk.Length && c !in cs :: store.disk[c] == old(store.disk[c])
  {
    if data == [] {
      assert Splice(Content(store, cs), start, data) == Content(store, cs);
      return Ok;
    }
    store.ChainOnDisk(cs);
    store.StepLink(cs, 0);
    ChainBytesLength(store.disk[..], store.size, cs);
    FitsChain(start, |data|, store.size, |cs|);
    r := WriteClusters(store, first, start, data, cs);
  }

  method WriteClusters(store: Store, first: U32, start: nat, data: seq<Byte>, ghost cs: seq<nat>) returns (r: Result)
    requires store.Valid() && IsChain(store.table.View(), cs) && cs[0] == first && InChain(first)
    requires data != [] && start + |data| <= |Content(store, cs)| == |cs| * store.size
    requires Hop(start, store.size) < |cs| && start == Hop(start, store.size) * store.size + Place(start, store.size)
    requires Place(start, store.size) < store.size
    modifies store.disk
    ensures store.Valid() && r == Ok
    ensures Content(store, cs) == Splice(old(Content(store, cs)), start, data)
    ensures forall c | 0 <= c < store.disk.Length && c !in cs :: store.disk[c] == old(store.disk[c])
  {
    hide IsChain, DirSlots, ChainBytes, Hop, Place, Splice, ValidDisk;
    ghost var whole := Content(store, cs);
    if first < 2 {
      return IoError;
    }
    ghost var n: nat := Hop(start, store.size);
    var cluster := store.FollowChain(first, Hop(start, store.size), cs);
    var offset: nat := Place(start, store.size);
    if !InChain(cluster) {
      return IoError;
    }
    var done := 0;
    SpliceNothing(whole, start, data);
    while done < |data|
      invariant store.Valid() && 0 <= done <= |data| && offset <= store.size
      invariant Content(store, cs) == Splice(whole, start, data[..done]) && |Content(store, cs)| == |whole|
      invariant done < |data| ==>
                  n < |cs| && cluster == cs[n] && offset < store.size && n * store.size + offset == start + done
      invariant forall c | 0 <= c < store.disk.Length && c !in cs :: store.disk[c] == old(store.disk[c])
      decreases |data| - done
    {
      var chunk := store.size - offset;
      if chunk > |data| - done {
        chunk := |data| - done;
      }
      SpliceGrows(whole, start, data, done, chunk);
      PutBytes(store, cluster, offset, data[done..done + chunk], cs, n);
      done := done + chunk;
      if done == |data| {
        break;
      }
      StillInside(n, |cs|, store.size, start + done, |cs| * store.size);
      store.StepLink(cs, n);
      offset := 0;
      cluster := store.table.NextCluster(cluster);
      n := n + 1;
      if !InChain(cluster) {
        return IoError;
      }
    }
    assert data[..done] == data;
    r := Ok;
  }

  lemma SpliceNothing(whole: seq<Byte>, start: nat, data: seq<Byte>)
    requires start + |data| <= |whole|
    ensures Splice(whole, start, data[..0]) == whole
  {
  }

  lemma SpliceGrows(whole: seq<Byte>, start: nat, data: seq<Byte>, done: nat, chunk: nat)
    requires start + |data| <= |whole| && done + chunk <= |data|
    ensures Splice(Splice(whole, start, data[..done]), start + done, data[done..done + chunk])
         == Splice(whole, start, data[..done + chunk])
  {
    SpliceJoin(whole, start, data[..done], data[done..done + chunk]);
    assert data[..done] + data[done..done + chunk] == data[..done + chunk];
  }

  /** A position short of the end, at the end of cluster `n`, leaves a further cluster. */
  lemma StillInside(n: nat, clusters: nat, size: nat, position: nat, length: nat)
    requires n < clusters && length == clusters * size
    requires position == n * size + size && position < length
    ensures n + 1 < clusters && (n + 1) * size == position
  {
    assert (n + 1) * size == n * size + size;
  }

  /** The loop of `fat32_read_file`: streams the chunks of a file, here into one sequence. */
  method ReadChain(store: Store, first: U32, size: nat, ghost cs: seq<nat>) returns (r: Result, out: seq<Byte>)
    requires store.Valid()
    requires if first == 0 then cs == [] else IsChain(store.table.View(), cs) && cs[0] == first
    ensures r == if size <= |Content(store, cs)| then Ok else IoError
    ensures r == Ok ==> out == Content(store, cs)[..size]
  {
    ChainLength(store, cs);
    if cs != [] { store.StepLink(cs, 0); }
    hide IsChain, DirSlots, ChainBytes, ValidDisk;
    ghost var whole := Content(store, cs);
    var remaining := size;
    var cluster := first;
    out := [];
    ghost var n := 0;
    while remaining > 0 && InChain(cluster)
      invariant 0 <= remaining <= size && n <= |cs|
      invariant n < |cs| ==> cluster == cs[n] && InChain(cluster)
      invariant n == |cs| ==> !InChain(cluster)
      invariant |out| == size - remaining <= |whole| && out == whole[..|out|]
      invariant remaining > 0 ==> |out| == n * store.size
      decreases |cs| - n
    {
      store.StepLink(cs, n);
      ReadWindow(store, cs, n);
      var chunk := store.size;
      if chunk > remaining {
        chunk := remaining;
      }
      assert whole[..|out| + chunk] == whole[..|out|] + whole[|out|..|out| + store.size][..chunk];
      out := out + store.disk[cluster][..chunk];
      remaining := remaining - chunk;
      cluster := store.table.NextCluster(cluster);
      n := n + 1;
    }
    r := if remaining == 0 then Ok else IoError;
  }

  lemma ChainLength(store: Store, cs: seq<nat>)
    requires store.Valid() && (cs != [] ==> IsChain(store.table.View(), cs))
    ensures |Content(store, cs)| == |cs| * store.size
  {
    if cs != [] {
      store.ChainOnDisk(cs);
    }
    ChainBytesLength(store.disk[..], store.size, cs);
  }

  lemma ReadWindow(store: Store, cs: seq<nat>, n: nat)
    requires store.Valid() && IsChain(store.table.View(), cs) && n < |cs|
    ensures cs[n] < store.disk.Length && |store.disk[cs[n]]| == store.size
    ensures |Content(store, cs)| == |cs| * store.size
            && n * store.size + store.size == (n + 1) * store.size <= |cs| * store.size
    ensures Content(store, cs)[n * store.size..n * store.size + store.size] == store.disk[cs[n]]
  {
    store.ChainOnDisk(cs);
    ByteWindow(store.disk[..], store.size, cs, n);
  }
}
