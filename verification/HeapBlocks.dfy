/** The kernel heap's block list as a value: what each edit of the list does to the bytes it
    covers, to its live blocks and to its coalesced form. */
module HeapBlocks {
  const HEADER := 24      // sizeof(HeapBlock)
  const ALIGNMENT := 16

  datatype Block = Block(addr: nat, size: nat, free: bool) {
    function End(): nat { addr + HEADER + size }
  }

  ghost predicate Inside(b: Block, a: nat) {
    b.addr <= a < b.End()
  }

  /** Byte `a` belongs to some block, header or payload. */
  ghost predicate Covers(bs: seq<Block>, a: nat) {
    exists i: nat :: i < |bs| && Inside(bs[i], a)
  }

  ghost predicate LiveAt(bs: seq<Block>, addr: nat, size: nat) {
    Block(addr, size, false) in bs
  }

  ghost predicate Aligned(b: Block) {
    b.addr % 8 == 0 && b.size % 8 == 0 && b.addr > 0
  }

  /** Address-ordered, no two blocks overlapping, everything 8-aligned. */
  ghost predicate Ordered(bs: seq<Block>) {
    && (forall i: nat | i < |bs| :: Aligned(bs[i]))
    && forall i: nat, j: nat | i < j < |bs| :: bs[i].End() <= bs[j].addr
  }

  predicate Mergeable(b: Block, c: Block) {
    b.free && c.free && b.End() == c.addr
  }

  ghost predicate Coalesced(bs: seq<Block>) {
    forall i: nat | i + 1 < |bs| :: !Mergeable(bs[i], bs[i + 1])
  }

  /** Byte `a` belongs to a free block. */
  ghost predicate FreeAt(bs: seq<Block>, a: nat) {
    exists i: nat :: i < |bs| && bs[i].free && Inside(bs[i], a)
  }

  /** Byte `a` belongs to the live block at `addr`. */
  ghost predicate LiveByte(bs: seq<Block>, a: nat) {
    exists addr: nat, size: nat :: LiveAt(bs, addr, size) && addr <= a < addr + HEADER + size
  }

  /** Every byte of the heap is either live or free. */
  lemma FreeOrLive(bs: seq<Block>, a: nat)
    requires Ordered(bs)
    ensures FreeAt(bs, a) <==> Covers(bs, a) && !LiveByte(bs, a)
  {
    if FreeAt(bs, a) {
      var i: nat :| i < |bs| && bs[i].free && Inside(bs[i], a);
      forall addr: nat, size: nat | LiveAt(bs, addr, size) ensures !(addr <= a < addr + HEADER + size) {
        var j: nat :| j < |bs| && bs[j] == Block(addr, size, false);
        assert i < j ==> bs[i].End() <= bs[j].addr;
        assert j < i ==> bs[j].End() <= bs[i].addr;
      }
    }
    if Covers(bs, a) && !LiveByte(bs, a) {
      var i: nat :| i < |bs| && Inside(bs[i], a);
      if !bs[i].free {
        assert LiveAt(bs, bs[i].addr, bs[i].size);
      }
    }
  }

  function Fused(b: Block, c: Block): Block {
    Block(b.addr, b.size + HEADER + c.size, b.free)
  }

  // ------------------------------------------------------------- merging

  /** `heap_merge_adjacent` */
  function Merged(bs: seq<Block>): seq<Block>
    decreases |bs|
  {
    if |bs| < 2 then bs
    else if Mergeable(bs[0], bs[1]) then Merged([Fused(bs[0], bs[1])] + bs[2..])
    else [bs[0]] + Merged(bs[1..])
  }

  lemma CoversConcat(xs: seq<Block>, ys: seq<Block>, a: nat)
    ensures Covers(xs + ys, a) <==> Covers(xs, a) || Covers(ys, a)
  {
    if Covers(xs, a) {
      var i: nat :| i < |xs| && Inside(xs[i], a);
      assert (xs + ys)[i] == xs[i];
    }
    if Covers(ys, a) {
      var i: nat :| i < |ys| && Inside(ys[i], a);
      assert (xs + ys)[|xs| + i] == ys[i];
    }
  }

  lemma CoversOne(b: Block, a: nat)
    ensures Covers([b], a) <==> Inside(b, a)
  {
    assert Inside(b, a) ==> Inside([b][0], a);
  }

  lemma OrderedTail(bs: seq<Block>, k: nat)
    requires Ordered(bs) && k <= |bs|
    ensures Ordered(bs[k..]) && Ordered(bs[..k])
  {
  }

  lemma FusedOrdered(bs: seq<Block>)
    requires Ordered(bs) && |bs| >= 2 && Mergeable(bs[0], bs[1])
    ensures Ordered([Fused(bs[0], bs[1])] + bs[2..])
  {
    var fused := [Fused(bs[0], bs[1])] + bs[2..];
    assert Aligned(bs[0]) && Aligned(bs[1]);
    forall i: nat, j: nat | i < j < |fused| ensures fused[i].End() <= fused[j].addr {
      assert fused[j] == bs[j + 1];
      assert i > 0 ==> fused[i] == bs[i + 1];
    }
    forall i: nat | i < |fused| ensures Aligned(fused[i]) {
      assert i > 0 ==> fused[i] == bs[i + 1];
    }
  }

  /** Merging neither loses nor gains a byte nor touches a live block, and leaves no two touching
      free blocks. */
  lemma {:induction false} MergedKeeps(bs: seq<Block>)
    requires Ordered(bs)
    ensures Ordered(Merged(bs)) && Coalesced(Merged(bs))
    ensures forall a: nat :: Covers(Merged(bs), a) <==> Covers(bs, a)
    ensures forall addr: nat, size: nat :: LiveAt(Merged(bs), addr, size) <==> LiveAt(bs, addr, size)
    ensures bs != [] ==> Merged(bs) != [] && Merged(bs)[0].addr == bs[0].addr && (bs[0].free <==> Merged(bs)[0].free)
    ensures bs != [] && !(|bs| >= 2 && Mergeable(bs[0], bs[1])) ==> Merged(bs)[0] == bs[0]
    decreases |bs|
  {
    if |bs| >= 2 {
      if Mergeable(bs[0], bs[1]) {
        FusedOrdered(bs);
        MergedKeeps([Fused(bs[0], bs[1])] + bs[2..]);
        FusedCovers(bs);
      } else {
        OrderedTail(bs, 1);
        MergedKeeps(bs[1..]);
        ConsKeeps(bs);
      }
    }
  }

  lemma FusedCovers(bs: seq<Block>)
    requires Ordered(bs) && |bs| >= 2 && Mergeable(bs[0], bs[1])
    ensures var fused := [Fused(bs[0], bs[1])] + bs[2..];
            && (forall a: nat :: Covers(fused, a) <==> Covers(bs, a))
            && forall addr: nat, size: nat :: LiveAt(fused, addr, size) <==> LiveAt(bs, addr, size)
  {
    var fused := [Fused(bs[0], bs[1])] + bs[2..];
    assert bs == [bs[0]] + ([bs[1]] + bs[2..]);
    forall a: nat ensures Covers(fused, a) <==> Covers(bs, a) {
      CoversConcat([Fused(bs[0], bs[1])], bs[2..], a);
      CoversConcat([bs[0]], [bs[1]] + bs[2..], a);
      CoversConcat([bs[1]], bs[2..], a);
      CoversOne(Fused(bs[0], bs[1]), a);
      CoversOne(bs[0], a);
      CoversOne(bs[1], a);
    }
  }

  lemma ConsKeeps(bs: seq<Block>)
    requires Ordered(bs) && |bs| >= 2 && !Mergeable(bs[0], bs[1])
    requires var m := Merged(bs[1..]);
             && Ordered(m) && Coalesced(m) && m != [] && m[0].addr == bs[1].addr && (m[0].free <==> bs[1].free)
             && (forall a: nat :: Covers(m, a) <==> Covers(bs[1..], a))
             && (forall addr: nat, size: nat :: LiveAt(m, addr, size) <==> LiveAt(bs[1..], addr, size))
    ensures var all := [bs[0]] + Merged(bs[1..]);
            && Ordered(all) && Coalesced(all)
            && (forall a: nat :: Covers(all, a) <==> Covers(bs, a))
            && forall addr: nat, size: nat :: LiveAt(all, addr, size) <==> LiveAt(bs, addr, size)
  {
    hide Merged;
    var m := Merged(bs[1..]);
    var all := [bs[0]] + m;
    assert bs == [bs[0]] + bs[1..];
    ConsOrdered(bs[0], m);
    assert forall i: nat | i + 1 < |all| :: !Mergeable(all[i], all[i + 1]) by {
      forall i: nat | i + 1 < |all| ensures !Mergeable(all[i], all[i + 1]) {
        assert i > 0 ==> all[i] == m[i - 1] && all[i + 1] == m[i - 1 + 1];
      }
    }
    forall a: nat ensures Covers(all, a) <==> Covers(bs, a) {
      CoversConcat([bs[0]], m, a);
      CoversConcat([bs[0]], bs[1..], a);
    }
    forall addr: nat, size: nat ensures LiveAt(all, addr, size) <==> LiveAt(bs, addr, size) {
      assert LiveAt(m, addr, size) <==> LiveAt(bs[1..], addr, size);
      LiveCons(bs[0], m, addr, size);
      LiveCons(bs[0], bs[1..], addr, size);
    }
  }

  lemma LiveCons(b: Block, rest: seq<Block>, addr: nat, size: nat)
    ensures LiveAt([b] + rest, addr, size) <==> b == Block(addr, size, false) || LiveAt(rest, addr, size)
  {
  }

  lemma ConsOrdered(b: Block, m: seq<Block>)
    requires Ordered(m) && m != [] && Aligned(b) && b.End() <= m[0].addr
    ensures Ordered([b] + m)
  {
    var all := [b] + m;
    forall i: nat, j: nat | i < j < |all| ensures all[i].End() <= all[j].addr {
      assert all[j] == m[j - 1];
      assert i > 0 ==> all[i] == m[i - 1];
      assert j > 1 ==> m[0].End() <= m[j - 1].addr;
    }
    forall i: nat | i < |all| ensures Aligned(all[i]) {
      assert i > 0 ==> all[i] == m[i - 1];
    }
  }

  // ------------------------------------------------------- first fit and split

  predicate Fits(b: Block, n: nat) {
    b.free && b.size >= n
  }

  function BlockFit(bs: seq<Block>, n: nat): (i: nat)
    ensures i <= |bs|
    ensures i < |bs| ==> Fits(bs[i], n)
    ensures forall j: nat | j < i :: !Fits(bs[j], n)
  {
    if bs == [] || Fits(bs[0], n) then 0 else 1 + BlockFit(bs[1..], n)
  }

  /** What the chosen block becomes: taken whole, or split when a further block fits behind. */
  function Carved(b: Block, n: nat): (seq<Block>)
    requires Fits(b, n)
  {
    if b.size >= n + HEADER + ALIGNMENT then
      [Block(b.addr, n, false), Block(b.addr + HEADER + n, b.size - n - HEADER, true)]
    else
      [Block(b.addr, b.size, false)]
  }

  function Allocated(bs: seq<Block>, n: nat): seq<Block>
    requires BlockFit(bs, n) < |bs|
  {
    var i := BlockFit(bs, n);
    bs[..i] + Carved(bs[i], n) + bs[i + 1..]
  }

  lemma CarvedCovers(b: Block, n: nat, a: nat)
    requires Fits(b, n)
    ensures Covers(Carved(b, n), a) <==> Inside(b, a)
  {
    if b.size >= n + HEADER + ALIGNMENT {
      var x, y := Carved(b, n)[0], Carved(b, n)[1];
      CoversConcat([x], [y], a);
      CoversOne(x, a);
      CoversOne(y, a);
      assert [x] + [y] == Carved(b, n);
    } else {
      CoversOne(Carved(b, n)[0], a);
    }
  }

  lemma AllocatedCovers(bs: seq<Block>, n: nat)
    requires BlockFit(bs, n) < |bs|
    ensures forall a: nat :: Covers(Allocated(bs, n), a) <==> Covers(bs, a)
  {
    hide Covers, BlockFit;
    var i := BlockFit(bs, n);
    var b := bs[i];
    assert bs == bs[..i] + [b] + bs[i + 1..];
    forall a: nat ensures Covers(Allocated(bs, n), a) <==> Covers(bs, a) {
      CoversConcat(bs[..i] + Carved(b, n), bs[i + 1..], a);
      CoversConcat(bs[..i], Carved(b, n), a);
      CoversConcat(bs[..i] + [b], bs[i + 1..], a);
      CoversConcat(bs[..i], [b], a);
      CarvedCovers(b, n, a);
      CoversOne(b, a);
    }
  }

  /** Pieces that fill one block's place leave the list ordered. */
  lemma ReplacedOrdered(bs: seq<Block>, i: nat, pieces: seq<Block>)
    requires Ordered(bs) && i < |bs| && Ordered(pieces)
    requires forall k: nat | k < |pieces| :: bs[i].addr <= pieces[k].addr && pieces[k].End() <= bs[i].End()
    ensures Ordered(bs[..i] + pieces + bs[i + 1..])
  {
    var all := bs[..i] + pieces + bs[i + 1..];
    forall j: nat | j < |all| ensures Aligned(all[j]) {
      assert all[j] == if j < i then bs[j] else if j < i + |pieces| then pieces[j - i] else bs[j - |pieces| + 1];
    }
    forall j: nat, k: nat | j < k < |all| ensures all[j].End() <= all[k].addr {
      assert all[j] == if j < i then bs[j] else if j < i + |pieces| then pieces[j - i] else bs[j - |pieces| + 1];
      assert all[k] == if k < i then bs[k] else if k < i + |pieces| then pieces[k - i] else bs[k - |pieces| + 1];
      assert j < i ==> bs[j].End() <= bs[i].addr;
      assert k >= i + |pieces| ==> bs[i].End() <= bs[k - |pieces| + 1].addr;
    }
  }

  lemma CarvedOrdered(b: Block, n: nat)
    requires Fits(b, n) && Aligned(b) && n % 8 == 0
    ensures Ordered(Carved(b, n))
    ensures forall k: nat | k < |Carved(b, n)| :: b.addr <= Carved(b, n)[k].addr && Carved(b, n)[k].End() <= b.End()
  {
    var pieces := Carved(b, n);
    if |pieces| == 1 { OrderedOne(pieces[0]); } else { OrderedTwo(pieces[0], pieces[1]); }
  }

  lemma OrderedOne(x: Block)
    requires Aligned(x)
    ensures Ordered([x])
  {
  }

  lemma OrderedTwo(x: Block, y: Block)
    requires Aligned(x) && Aligned(y) && x.End() <= y.addr
    ensures Ordered([x, y])
  {
  }

  /** Allocation makes exactly one block live, at the address of the lowest free block that is large
      enough.  It is larger than asked for only by less than a further block takes, and all that was
      free stays free but for its own bytes. */
  lemma AllocatedKeeps(bs: seq<Block>, n: nat)
    requires Ordered(bs) && Coalesced(bs) && n % 8 == 0 && BlockFit(bs, n) < |bs|
    ensures var b := bs[BlockFit(bs, n)];
            var size := Carved(b, n)[0].size;
            && b.free && (forall c | c in bs && c.free && c.size >= n :: b.addr <= c.addr)
            && size < n + HEADER + ALIGNMENT
            && forall a: nat :: FreeAt(Allocated(bs, n), a) <==>
                 FreeAt(bs, a) && !(b.addr <= a < b.addr + HEADER + size)
    ensures var b := bs[BlockFit(bs, n)];
            var size := Carved(b, n)[0].size;
            && Ordered(Allocated(bs, n)) && Coalesced(Allocated(bs, n))
            && size >= n && LiveAt(Allocated(bs, n), b.addr, size) && (forall s: nat :: !LiveAt(bs, b.addr, s))
            && forall addr: nat, s: nat :: LiveAt(Allocated(bs, n), addr, s) <==>
              LiveAt(bs, addr, s) || (addr == b.addr && s == size)
  {
    var i := BlockFit(bs, n);
    assert Aligned(bs[i]);
    CarvedOrdered(bs[i], n);
    ReplacedOrdered(bs, i, Carved(bs[i], n));
    AllocatedCoalesced(bs, n);
    AllocatedLive(bs, n);
    AllocatedLowest(bs, n);
    AllocatedCovers(bs, n);
    hide *;
    forall a: nat ensures FreeAt(Allocated(bs, n), a) <==>
                          FreeAt(bs, a) && !(bs[i].addr <= a < bs[i].addr + HEADER + Carved(bs[i], n)[0].size)
    {
      FreeOrLive(bs, a);
      FreeOrLive(Allocated(bs, n), a);
      OneLiveMore(bs, Allocated(bs, n), bs[i].addr, Carved(bs[i], n)[0].size, a);
    }
  }

  lemma AllocatedLowest(bs: seq<Block>, n: nat)
    requires Ordered(bs) && BlockFit(bs, n) < |bs|
    ensures var b := bs[BlockFit(bs, n)];
            b.free && (forall c | c in bs && c.free && c.size >= n :: b.addr <= c.addr)
            && Carved(b, n)[0].size < n + HEADER + ALIGNMENT
  {
    var i := BlockFit(bs, n);
    forall c | c in bs && c.free && c.size >= n ensures bs[i].addr <= c.addr {
      var j: nat :| j < |bs| && bs[j] == c;
      assert i < j ==> bs[i].End() <= bs[j].addr;
    }
  }

  lemma OneLiveMore(bs: seq<Block>, bs': seq<Block>, at: nat, n: nat, a: nat)
    requires forall addr: nat, s: nat :: LiveAt(bs', addr, s) <==> LiveAt(bs, addr, s) || (addr == at && s == n)
    ensures LiveByte(bs', a) <==> LiveByte(bs, a) || at <= a < at + HEADER + n
  {
    hide LiveAt;
    if LiveByte(bs, a) {
      var addr: nat, s: nat :| LiveAt(bs, addr, s) && addr <= a < addr + HEADER + s;
      assert LiveAt(bs', addr, s);
    }
    if at <= a < at + HEADER + n { assert LiveAt(bs', at, n); }
  }

  lemma AllocatedCoalesced(bs: seq<Block>, n: nat)
    requires Coalesced(bs) && BlockFit(bs, n) < |bs|
    ensures Coalesced(Allocated(bs, n))
  {
    hide BlockFit;
    var i := BlockFit(bs, n);
    var pieces := Carved(bs[i], n);
    var all := bs[..i] + pieces + bs[i + 1..];
    forall j: nat | j + 1 < |all| ensures !Mergeable(all[j], all[j + 1]) {
      assert all[j] == if j < i then bs[j] else if j < i + |pieces| then pieces[j - i] else bs[j - |pieces| + 1];
      assert all[j + 1] == if j + 1 < i then bs[j + 1] else if j + 1 < i + |pieces| then pieces[j + 1 - i]
             else bs[j + 1 - |pieces| + 1];
      assert j + 1 < i ==> !Mergeable(bs[j], bs[j + 1]);
      assert i + 1 < |bs| ==> !Mergeable(bs[i], bs[i + 1]);
      assert j - |pieces| + 1 > i ==> !Mergeable(bs[j - |pieces| + 1], bs[j - |pieces| + 1 + 1]);
    }
  }

  lemma AllocatedLive(bs: seq<Block>, n: nat)
    requires Ordered(bs) && BlockFit(bs, n) < |bs|
    ensures var b := bs[BlockFit(bs, n)];
            var size := Carved(b, n)[0].size;
            && size >= n && (forall s: nat :: !LiveAt(bs, b.addr, s))
            && forall addr: nat, s: nat :: LiveAt(Allocated(bs, n), addr, s) <==>
              LiveAt(bs, addr, s) || (addr == b.addr && s == size)
  {
    hide BlockFit;
    var i := BlockFit(bs, n);
    var b := bs[i];
    forall s: nat ensures !LiveAt(bs, b.addr, s) {
      forall j: nat | j < |bs| ensures bs[j] != Block(b.addr, s, false) {
        assert j < i ==> bs[j].End() <= b.addr;
        assert j > i ==> b.End() <= bs[j].addr;
      }
    }
    assert bs == bs[..i] + [b] + bs[i + 1..];
  }

  // ----------------------------------------------------------- freeing, growing

  function Freed(bs: seq<Block>, i: nat): seq<Block>
    requires i < |bs|
  {
    bs[i := bs[i].(free := true)]
  }

  lemma FreedKeeps(bs: seq<Block>, i: nat)
    requires Ordered(bs) && i < |bs| && !bs[i].free
    ensures Ordered(Freed(bs, i))
    ensures forall a: nat :: Covers(Freed(bs, i), a) <==> Covers(bs, a)
    ensures forall addr: nat, s: nat :: LiveAt(Freed(bs, i), addr, s) <==> LiveAt(bs, addr, s) && addr != bs[i].addr
  {
    var bs' := Freed(bs, i);
    forall j: nat | j < |bs'| ensures Aligned(bs'[j]) {
      assert Aligned(bs[j]);
    }
    forall a: nat ensures Covers(bs', a) <==> Covers(bs, a) {
      if Covers(bs, a) {
        var j: nat :| j < |bs| && Inside(bs[j], a);
        assert Inside(bs'[j], a);
      }
      if Covers(bs', a) {
        var j: nat :| j < |bs'| && Inside(bs'[j], a);
        assert Inside(bs[j], a);
      }
    }
    forall addr: nat, s: nat ensures LiveAt(bs', addr, s) <==> LiveAt(bs, addr, s) && addr != bs[i].addr {
      AddressOnce(bs, i);
      if LiveAt(bs, addr, s) && addr != bs[i].addr {
        var j: nat :| j < |bs| && bs[j] == Block(addr, s, false);
        assert bs'[j] == bs[j];
      }
      if LiveAt(bs', addr, s) {
        var j: nat :| j < |bs'| && bs'[j] == Block(addr, s, false);
        assert j != i && bs'[j] == bs[j];
      }
    }
  }

  lemma AddressOnce(bs: seq<Block>, i: nat)
    requires Ordered(bs) && i < |bs|
    ensures forall j: nat | j < |bs| && j != i :: bs[j].addr != bs[i].addr
  {
    forall j: nat | j < |bs| && j != i ensures bs[j].addr != bs[i].addr {
      assert j < i ==> bs[j].End() <= bs[i].addr;
      assert j > i ==> bs[i].End() <= bs[j].addr;
    }
  }

  /** How many blocks lie below `addr`. */
  function BlocksBelow(bs: seq<Block>, addr: nat): (n: nat)
    ensures n <= |bs|
    ensures forall j: nat | j < n :: bs[j].addr < addr
    ensures n < |bs| ==> bs[n].addr >= addr
  {
    if bs == [] || bs[0].addr >= addr then 0 else 1 + BlocksBelow(bs[1..], addr)
  }

  /** `heap_insert_block` */
  function Inserted(bs: seq<Block>, b: Block): seq<Block> {
    var n := BlocksBelow(bs, b.addr);
    bs[..n] + [b] + bs[n..]
  }

  lemma InsertedKeeps(bs: seq<Block>, b: Block)
    requires Ordered(bs) && Aligned(b) && forall a: nat | Inside(b, a) :: !Covers(bs, a)
    ensures Ordered(Inserted(bs, b))
    ensures forall a: nat :: Covers(Inserted(bs, b), a) <==> Covers(bs, a) || Inside(b, a)
    ensures b.free ==> forall addr: nat, s: nat :: LiveAt(Inserted(bs, b), addr, s) <==> LiveAt(bs, addr, s)
  {
    var n := BlocksBelow(bs, b.addr);
    assert bs == bs[..n] + bs[n..];
    AroundNew(bs, b);
    hide BlocksBelow, Covers;
    forall a: nat ensures Covers(Inserted(bs, b), a) <==> Covers(bs, a) || Inside(b, a) {
      CoversConcat(bs[..n] + [b], bs[n..], a);
      CoversConcat(bs[..n], [b], a);
      CoversConcat(bs[..n], bs[n..], a);
      CoversOne(b, a);
    }
    InsertedOrdered(bs, b);
  }

  lemma AroundNew(bs: seq<Block>, b: Block)
    requires Ordered(bs) && forall a: nat | Inside(b, a) :: !Covers(bs, a)
    ensures var n := BlocksBelow(bs, b.addr);
            && (forall j: nat | j < n :: bs[j].End() <= b.addr)
            && (forall j: nat | n <= j < |bs| :: b.End() <= bs[j].addr)
  {
    var n := BlocksBelow(bs, b.addr);
    forall j: nat | j < n ensures bs[j].End() <= b.addr {
      assert Inside(b, b.addr);
      assert !Inside(bs[j], b.addr);
    }
    forall j: nat | n <= j < |bs| ensures b.End() <= bs[j].addr {
      assert j > n ==> bs[n].End() <= bs[j].addr;
      assert Inside(bs[j], bs[j].addr);
      assert Covers(bs, bs[j].addr);
    }
  }

  lemma InsertedOrdered(bs: seq<Block>, b: Block)
    requires Ordered(bs) && Aligned(b)
    requires var n := BlocksBelow(bs, b.addr);
             && (forall j: nat | j < n :: bs[j].End() <= b.addr)
             && (forall j: nat | n <= j < |bs| :: b.End() <= bs[j].addr)
    ensures Ordered(Inserted(bs, b))
  {
    InsertedAt(bs, b);
    OrderedAround(bs, BlocksBelow(bs, b.addr), b, Inserted(bs, b));
  }

  lemma OrderedAround(bs: seq<Block>, n: nat, b: Block, all: seq<Block>)
    requires Ordered(bs) && Aligned(b) && n <= |bs|
    requires (forall j: nat | j < n :: bs[j].End() <= b.addr)
             && (forall j: nat | n <= j < |bs| :: b.End() <= bs[j].addr)
    requires |all| == |bs| + 1
    requires forall j: nat {:trigger all[j]} | j < |all| ::
             all[j] == if j < n then bs[j] else if j == n then b else bs[j - 1]
    ensures Ordered(all)
  {
    forall j: nat | j < |all| ensures Aligned(all[j]) {
      assert all[j] == if j < n then bs[j] else if j == n then b else bs[j - 1];
    }
    forall j: nat, k: nat | j < k < |all| ensures all[j].End() <= all[k].addr {
      assert all[j] == if j < n then bs[j] else if j == n then b else bs[j - 1];
      assert all[k] == if k < n then bs[k] else if k == n then b else bs[k - 1];
    }
  }

  lemma InsertedAt(bs: seq<Block>, b: Block)
    ensures var n := BlocksBelow(bs, b.addr);
            && |Inserted(bs, b)| == |bs| + 1
            && forall j: nat {:trigger Inserted(bs, b)[j]} | j <= |bs| ::
              Inserted(bs, b)[j] == if j < n then bs[j] else if j == n then b else bs[j - 1]
  {
    hide BlocksBelow;
  }

  ghost predicate HasFit(bs: seq<Block>, n: nat) {
    exists i: nat :: i < |bs| && Fits(bs[i], n)
  }

  lemma FitFound(bs: seq<Block>, n: nat)
    ensures BlockFit(bs, n) < |bs| <==> HasFit(bs, n)
  {
    if BlockFit(bs, n) < |bs| {
      assert Fits(bs[BlockFit(bs, n)], n);
    }
  }

  /** Merging never takes away a block that fits. */
  lemma {:induction false} MergedFits(bs: seq<Block>, n: nat)
    requires HasFit(bs, n)
    ensures HasFit(Merged(bs), n)
    decreases |bs|
  {
    var i: nat :| i < |bs| && Fits(bs[i], n);
    if |bs| >= 2 {
      if Mergeable(bs[0], bs[1]) {
        var fused := [Fused(bs[0], bs[1])] + bs[2..];
        assert Fits(fused[if i < 2 then 0 else i - 1], n);
        MergedFits(fused, n);
      } else if i == 0 {
        assert Fits(Merged(bs)[0], n);
      } else {
        assert Fits(bs[1..][i - 1], n);
        MergedFits(bs[1..], n);
        var k: nat :| k < |Merged(bs[1..])| && Fits(Merged(bs[1..])[k], n);
        assert Merged(bs)[k + 1] == Merged(bs[1..])[k];
      }
    }
  }

  /** After the heap has grown by a block of at least `n` bytes, the first-fit search succeeds:
      kmalloc calls itself at most once. */
  lemma GrowthSuffices(bs: seq<Block>, b: Block, n: nat)
    requires Fits(b, n)
    ensures BlockFit(Merged(Inserted(bs, b)), n) < |Merged(Inserted(bs, b))|
  {
    var k := BlocksBelow(bs, b.addr);
    assert Inserted(bs, b)[k] == b;
    assert HasFit(Inserted(bs, b), n);
    MergedFits(Inserted(bs, b), n);
    FitFound(Merged(Inserted(bs, b)), n);
  }
}
