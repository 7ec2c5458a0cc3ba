/** Clusters laid end to end: the bytes and the directory slots of a chain. */
module FatBlocks {
  import opened Bytes
  import opened FatSlots
  import opened FatTables

  type Disk = seq<seq<Byte>>

  function Flat<T>(blocks: seq<seq<T>>): seq<T> {
    if blocks == [] then [] else blocks[0] + Flat(blocks[1..])
  }

  ghost predicate Uniform<T>(blocks: seq<seq<T>>, w: nat) {
    forall i | 0 <= i < |blocks| :: |blocks[i]| == w
  }

  lemma {:induction false} FlatConcat<T>(a: seq<seq<T>>, b: seq<seq<T>>)
    ensures Flat(a + b) == Flat(a) + Flat(b)
    decreases |a|
  {
    if a == [] {
      assert a + b == b;
    } else {
      assert (a + b)[1..] == a[1..] + b;
      FlatConcat(a[1..], b);
    }
  }

  lemma {:induction false} FlatLength<T>(blocks: seq<seq<T>>, w: nat)
    requires Uniform(blocks, w)
    ensures |Flat(blocks)| == |blocks| * w
    decreases |blocks|
  {
    if blocks != [] {
      FlatLength(blocks[1..], w);
      assert |blocks| * w == w + (|blocks| - 1) * w;
    }
  }

  lemma FlatSingle<T>(b: seq<T>)
    ensures Flat([b]) == b
  {
    assert [b][1..] == [];
  }

  lemma FlatJoin<T>(a: seq<seq<T>>, m: seq<T>, z: seq<seq<T>>)
    ensures Flat(a + [m] + z) == Flat(a) + m + Flat(z)
  {
    hide Flat;
    FlatConcat(a + [m], z);
    FlatConcat(a, [m]);
    FlatSingle(m);
  }

  /** Around block `i`: what lies before, the block itself, what lies behind. */
  lemma FlatAround<T>(blocks: seq<seq<T>>, i: nat)
    requires i < |blocks|
    ensures Flat(blocks) == Flat(blocks[..i]) + blocks[i] + Flat(blocks[i + 1..])
  {
    hide Flat;
    FlatJoin(blocks[..i], blocks[i], blocks[i + 1..]);
    SplitAround(blocks, i);
  }

  lemma SplitAround<T>(s: seq<T>, i: nat)
    requires i < |s|
    ensures s == s[..i] + [s[i]] + s[i + 1..]
  {
  }

  lemma FlatPosition<T>(blocks: seq<seq<T>>, w: nat, i: nat)
    requires Uniform(blocks, w) && i < |blocks|
    ensures |Flat(blocks[..i])| == i * w
    ensures |Flat(blocks)| == |blocks| * w && i * w + w <= |blocks| * w
  {
    FlatLength(blocks[..i], w);
    FlatLength(blocks, w);
    hide Flat;
    Product(i + 1, |blocks|, w);
  }

  lemma {:induction false} Product(a: nat, b: nat, w: nat)
    requires a <= b
    ensures a * w <= b * w
    decreases b
  {
    if a < b {
      Product(a, b - 1, w);
    }
  }

  /** Replacing block `i` rewrites exactly its stretch of the whole. */
  lemma FlatUpdate<T>(blocks: seq<seq<T>>, i: nat, b: seq<T>)
    requires i < |blocks|
    ensures Flat(blocks[i := b]) == Flat(blocks[..i]) + b + Flat(blocks[i + 1..])
  {
    FlatAround(blocks[i := b], i);
    assert blocks[i := b][..i] == blocks[..i] && blocks[i := b][i + 1..] == blocks[i + 1..];
  }

  lemma UpdateMiddle<T>(before: seq<T>, mid: seq<T>, after: seq<T>, j: nat, x: T)
    requires j < |mid|
    ensures before + mid[j := x] + after == (before + mid + after)[|before| + j := x]
    ensures (before + mid + after)[|before| + j] == mid[j]
  {
  }

  // ------------------------------------------------------------- clusters

  function Blocks(disk: Disk, cs: seq<nat>): (b: seq<seq<Byte>>)
    ensures |b| == |cs|
  {
    seq(|cs|, i requires 0 <= i < |cs| => if cs[i] < |disk| then disk[cs[i]] else [])
  }

  ghost predicate ValidDisk(disk: Disk, size: nat) {
    Uniform(disk, size)
  }

  predicate ClustersOn(disk: Disk, cs: seq<nat>) {
    forall i | 0 <= i < |cs| :: cs[i] < |disk|
  }

  /** The bytes of a chain. */
  function ChainBytes(disk: Disk, cs: seq<nat>): seq<Byte> {
    Flat(Blocks(disk, cs))
  }

  lemma BlocksUniform(disk: Disk, size: nat, cs: seq<nat>)
    requires ValidDisk(disk, size) && ClustersOn(disk, cs)
    ensures Uniform(Blocks(disk, cs), size)
  {
  }

  lemma ChainBytesLength(disk: Disk, size: nat, cs: seq<nat>)
    requires ValidDisk(disk, size) && ClustersOn(disk, cs)
    ensures |ChainBytes(disk, cs)| == |cs| * size
  {
    BlocksUniform(disk, size, cs);
    FlatLength(Blocks(disk, cs), size);
  }

  /** Clusters of no concern to a chain may change freely. */
  lemma BlocksFrame(disk: Disk, disk': Disk, cs: seq<nat>)
    requires |disk'| == |disk|
    requires forall c | c in cs && c < |disk| :: disk'[c] == disk[c]
    ensures Blocks(disk', cs) == Blocks(disk, cs)
  {
    assert forall i | 0 <= i < |cs| :: cs[i] in cs;
  }

  lemma BlocksUpdate(disk: Disk, cs: seq<nat>, i: nat, b: seq<Byte>)
    requires NoDuplicates(cs) && i < |cs| && cs[i] < |disk|
    ensures Blocks(disk[cs[i] := b], cs) == Blocks(disk, cs)[i := b]
  {
  }

  // ---------------------------------------------------------------- slots

  function SlotAt(b: seq<Byte>, i: nat): Slot
    requires SLOT_SIZE * (i + 1) <= |b|
  {
    b[SLOT_SIZE * i..SLOT_SIZE * (i + 1)]
  }

  /** A cluster read as directory slots. */
  function Slots(b: seq<Byte>): (s: seq<Slot>)
    ensures |s| == |b| / SLOT_SIZE
  {
    seq(|b| / SLOT_SIZE, i requires 0 <= i < |b| / SLOT_SIZE => SlotAt(b, i))
  }

  function PutSlot(b: seq<Byte>, i: nat, s: Slot): (r: seq<Byte>)
    requires SLOT_SIZE * (i + 1) <= |b|
    ensures |r| == |b|
  {
    Splice(b, SLOT_SIZE * i, s)
  }

  lemma PutSlotReads(b: seq<Byte>, i: nat, s: Slot)
    requires SLOT_SIZE * (i + 1) <= |b|
    ensures Slots(PutSlot(b, i, s)) == Slots(b)[i := s]
  {
    var b' := PutSlot(b, i, s);
    forall j | 0 <= j < |b| / SLOT_SIZE ensures SlotAt(b', j) == Slots(b)[i := s][j] {
      if j < i {
        assert SLOT_SIZE * (j + 1) <= SLOT_SIZE * i;
      } else if j > i {
        assert SLOT_SIZE * (i + 1) <= SLOT_SIZE * j;
      }
    }
  }

  lemma ZeroSlots(n: nat)
    ensures forall i | 0 <= i < |Slots(Zeros(n))| :: IsEnd(Slots(Zeros(n))[i])
  {
  }

  function SlotBlocks(disk: Disk, cs: seq<nat>): (b: seq<seq<Slot>>)
    ensures |b| == |cs|
  {
    seq(|cs|, i requires 0 <= i < |cs| => Slots(Blocks(disk, cs)[i]))
  }

  /** The slots of a directory's chain. */
  function DirSlots(disk: Disk, cs: seq<nat>): seq<Slot> {
    Flat(SlotBlocks(disk, cs))
  }

  lemma SlotBlocksUniform(disk: Disk, size: nat, cs: seq<nat>)
    requires ValidDisk(disk, size) && ClustersOn(disk, cs)
    ensures Uniform(SlotBlocks(disk, cs), size / SLOT_SIZE)
  {
  }

  lemma DirSlotsFrame(disk: Disk, disk': Disk, cs: seq<nat>)
    requires |disk'| == |disk|
    requires forall c | c in cs && c < |disk| :: disk'[c] == disk[c]
    ensures DirSlots(disk', cs) == DirSlots(disk, cs)
  {
    BlocksFrame(disk, disk', cs);
  }

  /** Slot `i * per + j` of a directory is slot `j` of its `i`-th cluster. */
  lemma DirSlotAt(disk: Disk, size: nat, cs: seq<nat>, i: nat, j: nat)
    requires ValidDisk(disk, size) && ClustersOn(disk, cs)
    requires i < |cs| && j < size / SLOT_SIZE
    ensures |DirSlots(disk, cs)| == |cs| * (size / SLOT_SIZE)
    ensures 0 <= i * (size / SLOT_SIZE) + j < |DirSlots(disk, cs)|
    ensures DirSlots(disk, cs)[i * (size / SLOT_SIZE) + j] == Slots(disk[cs[i]])[j]
  {
    var blocks := SlotBlocks(disk, cs);
    SlotBlocksUniform(disk, size, cs);
    FlatPosition(blocks, size / SLOT_SIZE, i);
    FlatAround(blocks, i);
    UpdateMiddle(Flat(blocks[..i]), blocks[i], Flat(blocks[i + 1..]), j, blocks[i][j]);
  }

  lemma SlotBlocksPut(disk: Disk, size: nat, cs: seq<nat>, i: nat, j: nat, s: Slot)
    requires ValidDisk(disk, size) && ClustersOn(disk, cs) && NoDuplicates(cs)
    requires i < |cs| && j < size / SLOT_SIZE
    ensures SLOT_SIZE * (j + 1) <= size
    ensures var b: seq<Slot> := SlotBlocks(disk, cs)[i];
            |b| == size / SLOT_SIZE &&
            SlotBlocks(disk[cs[i] := PutSlot(disk[cs[i]], j, s)], cs) == SlotBlocks(disk, cs)[i := b[j := s]]
  {
    PutSlotReads(disk[cs[i]], j, s);
    BlocksUpdate(disk, cs, i, PutSlot(disk[cs[i]], j, s));
  }

  lemma DirSlotPut(disk: Disk, size: nat, cs: seq<nat>, i: nat, j: nat, s: Slot)
    requires ValidDisk(disk, size) && ClustersOn(disk, cs) && NoDuplicates(cs)
    requires i < |cs| && j < size / SLOT_SIZE
    ensures SLOT_SIZE * (j + 1) <= size
    ensures 0 <= i * (size / SLOT_SIZE) + j < |DirSlots(disk, cs)|
    ensures DirSlots(disk[cs[i] := PutSlot(disk[cs[i]], j, s)], cs)
         == DirSlots(disk, cs)[i * (size / SLOT_SIZE) + j := s]
  {
    var blocks := SlotBlocks(disk, cs);
    SlotBlocksPut(disk, size, cs, i, j, s);
    SlotBlocksUniform(disk, size, cs);
    FlatPosition(blocks, size / SLOT_SIZE, i);
    hide SlotBlocks, PutSlot, Uniform, ValidDisk, Flat;
    FlatAround(blocks, i);
    var b: seq<Slot> := blocks[i];
    FlatUpdate(blocks, i, b[j := s]);
    UpdateMiddle(Flat(blocks[..i]), blocks[i], Flat(blocks[i + 1..]), j, s);
  }
}
