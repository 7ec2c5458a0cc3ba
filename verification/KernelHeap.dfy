/** The kernel heap: a linked list of block headers in memory, grown page-wise from the allocator. */
module KernelHeap {
  import opened Bytes
  import opened PageRanges
  import opened PageFrames
  import opened HeapBlocks

  /** A `HeapBlock` header; `next` is 0 at the end of the list. */
  datatype Header = Header(size: nat, free: bool, next: nat)

  /** The header of block `i` of a list. */
  function HeaderOf(list: seq<Block>, i: nat): Header
    requires i < |list|
  {
    Header(list[i].size, list[i].free, if i + 1 < |list| then list[i + 1].addr else 0)
  }

  /** `align_up_size` for the heap's alignment, in machine arithmetic. */
  function AlignSize(n: nat): (r: nat)
    ensures r % ALIGNMENT == 0 && r < WORD
  {
    (n + ALIGNMENT - 1) % WORD / ALIGNMENT * ALIGNMENT
  }

  /** The pages heap_grow asks for, in machine arithmetic. */
  function PagesFor(n: nat): nat {
    ((HEADER + n) % WORD + PAGE_SIZE - 1) % WORD / PAGE_SIZE
  }

  /** Rounding a request up keeps it, up to the last sixteen sizes of the machine word: those wrap
      to nothing, and the caller gets a block of any size. */
  lemma AlignSizeExact(n: nat)
    requires n < WORD
    ensures n <= AlignSize(n) <==> n == 0 || n + ALIGNMENT - 1 < WORD
    ensures n + ALIGNMENT - 1 < WORD ==> n <= AlignSize(n) < n + ALIGNMENT
    ensures AlignSize(WORD - 1) == 0
  {
    Modulo(n + ALIGNMENT - 1);
  }

  lemma Modulo(x: nat)
    requires x < 2 * WORD
    ensures x % WORD == if x < WORD then x else x - WORD
  {
  }

  /** Header, request and rounding fit the machine word. */
  predicate GrowthFits(n: nat) {
    HEADER + n + PAGE_SIZE - 1 < WORD
  }

  /** Exactly then is the growth large enough; otherwise no page is asked for, or, for the largest
      aligned request of all, a single one. */
  lemma PagesForExact(n: nat)
    requires n < WORD && n % ALIGNMENT == 0
    ensures HEADER + n <= PagesFor(n) * PAGE_SIZE <==> GrowthFits(n)
    ensures GrowthFits(n) ==> PagesFor(n) > 0 && (PagesFor(n) - 1) * PAGE_SIZE < HEADER + n
    ensures n == WORD - ALIGNMENT ==> PagesFor(n) == 1
    ensures !GrowthFits(n) ==> PagesFor(n) == if n == WORD - ALIGNMENT then 1 else 0
  {
    Modulo(HEADER + n);
    Modulo((HEADER + n) % WORD + PAGE_SIZE - 1);
    if !GrowthFits(n) && n != WORD - ALIGNMENT {
      LargestButOne(n);
    }
  }

  lemma LargestButOne(n: nat)
    requires n < WORD && n % ALIGNMENT == 0 && n != WORD - ALIGNMENT
    ensures HEADER + n < WORD
  {
  }

  type Memory = map<nat, Header>

  /** The headers in memory spell the list. */
  ghost predicate Spells(head: nat, memory: Memory, list: seq<Block>) {
    && head == (if list == [] then 0 else list[0].addr)
    && forall i: nat | i < |list| :: SpelledAt(memory, list, i)
  }

  ghost predicate SpelledAt(memory: Memory, list: seq<Block>, i: nat)
    requires i < |list|
  {
    list[i].addr > 0 && list[i].addr in memory && memory[list[i].addr] == HeaderOf(list, i)
  }

  ghost predicate Rising(list: seq<Block>) {
    forall i: nat, j: nat | i < j < |list| :: list[i].addr < list[j].addr
  }

  lemma OrderedRises(list: seq<Block>)
    requires Ordered(list)
    ensures Rising(list)
  {
    forall i: nat, j: nat | i < j < |list| ensures list[i].addr < list[j].addr {
      assert list[i].End() <= list[j].addr;
    }
  }

  /** Linking a new header in behind block `n - 1`. */
  lemma InsertSpells(head: nat, memory: Memory, list: seq<Block>, block: Block, n: nat)
    requires Spells(head, memory, list) && Rising(list) && n <= |list| && block.addr > 0
    requires forall i: nat | i < |list| :: list[i].addr != block.addr
    requires block.addr in memory && memory[block.addr].size == block.size && memory[block.addr].free == block.free
    ensures n > 0 ==> list[n - 1].addr in memory
    ensures var linked := memory[block.addr := memory[block.addr].(next := if n < |list| then list[n].addr else 0)];
            var list' := list[..n] + [block] + list[n..];
            && (n == 0 ==> Spells(block.addr, linked, list'))
            && (n > 0 ==> list[n - 1].addr in linked)
            && (n > 0 ==> Spells(head, linked[list[n - 1].addr := linked[list[n - 1].addr].(next := block.addr)],
              list'))
  {
    var list' := list[..n] + [block] + list[n..];
    var linked := memory[block.addr := memory[block.addr].(next := if n < |list| then list[n].addr else 0)];
    if n > 0 { assert SpelledAt(memory, list, n - 1); }
    var memory' := if n == 0 then linked else linked[list[n - 1].addr := linked[list[n - 1].addr].(next := block.addr)];
    forall k: nat | k < |list'| ensures SpelledAt(memory', list', k) {
      assert k < n ==> list'[k] == list[k] && SpelledAt(memory, list, k);
      assert k > n ==> list'[k] == list[k - 1] && SpelledAt(memory, list, k - 1);
      assert k + 1 < |list'| ==> list'[k + 1] == if k + 1 < n then list[k + 1] else if k + 1 == n then block
             else list[k];
    }
  }

  /** Fusing block `k` with its successor. */
  lemma FuseSpells(head: nat, memory: Memory, list: seq<Block>, k: nat)
    requires Spells(head, memory, list) && Rising(list) && k + 1 < |list| && list[k].free
    ensures var list' := list[..k] + [Fused(list[k], list[k + 1])] + list[k + 2..];
            && list[k].addr in memory && list[k + 1].addr in memory && Rising(list')
            && var next := memory[list[k + 1].addr];
               Spells(head, memory[list[k].addr := Header(memory[list[k].addr].size + HEADER + next.size, true,
                 next.next)], list')
  {
    assert SpelledAt(memory, list, k) && SpelledAt(memory, list, k + 1);
    var list' := list[..k] + [Fused(list[k], list[k + 1])] + list[k + 2..];
    var next := memory[list[k + 1].addr];
    var memory' := memory[list[k].addr := Header(memory[list[k].addr].size + HEADER + next.size, true, next.next)];
    assert forall j: nat | j < |list'| ::
           list'[j] == if j < k then list[j] else if j == k then Fused(list[k], list[k + 1]) else list[j + 1];
    forall j: nat | j < |list'| ensures SpelledAt(memory', list', j) {
      assert j < k ==> SpelledAt(memory, list, j);
      assert j > k ==> SpelledAt(memory, list, j + 1);
    }
  }

  /** Block at `addr` is live. */
  ghost predicate IsLive(list: seq<Block>, addr: nat) {
    exists size: nat :: LiveAt(list, addr, size)
  }

  ghost predicate SameLive(was: seq<Block>, list: seq<Block>) {
    forall addr: nat, size: nat :: LiveAt(list, addr, size) <==> LiveAt(was, addr, size)
  }

  /** Besides the blocks live before, exactly one of `size` bytes at `addr`. */
  ghost predicate OneMoreLive(was: seq<Block>, list: seq<Block>, addr: nat, size: nat) {
    && !IsLive(was, addr) && LiveAt(list, addr, size)
    && forall x: nat, s: nat :: LiveAt(list, x, s) <==> LiveAt(was, x, s) || (x == addr && s == size)
  }

  /** The new block is at the lowest free block that is large enough for `n` bytes, and exceeds them
      by less than a further block takes. */
  ghost predicate ServedAt(was: seq<Block>, list: seq<Block>, addr: nat, size: nat, n: nat) {
    && OneMoreLive(was, list, addr, size) && n <= size < n + HEADER + ALIGNMENT
    && forall c | c in was && c.free && c.size >= n :: addr <= c.addr
  }

  /** Exactly the block at `addr` is no longer live. */
  ghost predicate OneLessLive(was: seq<Block>, list: seq<Block>, addr: nat) {
    forall x: nat, s: nat :: LiveAt(list, x, s) <==> LiveAt(was, x, s) && x != addr
  }

  /** Ordered, coalesced blocks whose headers and payloads tile exactly the pages obtained, none of
      which the allocator still counts as free. */
  ghost predicate Sound(list: seq<Block>, obtained: seq<Range>, free: seq<Range>) {
    && Ordered(list) && Coalesced(list) && !Holds(free, 0)
    && (forall a: nat :: Covers(list, a) <==> Holds(obtained, a))
    && forall a: nat | Covers(list, a) :: !Holds(free, a)
  }

  /** No two free blocks touch. */
  lemma SoundApart(list: seq<Block>, obtained: seq<Range>, free: seq<Range>, b: Block, c: Block)
    requires Sound(list, obtained, free) && b in list && c in list && b.free && c.free
    ensures b.addr + HEADER + b.size != c.addr
  {
    var i: nat :| i < |list| && list[i] == b;
    var j: nat :| j < |list| && list[j] == c;
    hide Holds, Covers;
    if j < i { assert list[j].End() <= list[i].addr; }
    if i + 1 == j { assert !Mergeable(list[i], list[i + 1]); }
    if i + 1 < j { assert list[i].End() <= list[i + 1].addr && list[i + 1].End() <= list[j].addr; }
  }

  /** So all the heap's bytes but those of live blocks are free. */
  lemma SoundBytes(list: seq<Block>, obtained: seq<Range>, free: seq<Range>, a: nat)
    requires Sound(list, obtained, free)
    ensures FreeAt(list, a) <==> Holds(obtained, a) && !LiveByte(list, a)
  {
    FreeOrLive(list, a);
    hide FreeAt, LiveByte, Holds, Ordered, Coalesced, Covers;
  }

  lemma AllocatedSound(list: seq<Block>, obtained: seq<Range>, free: seq<Range>, n: nat)
    requires Sound(list, obtained, free) && n % 8 == 0 && BlockFit(list, n) < |list|
    ensures Sound(Allocated(list, n), obtained, free) && list[BlockFit(list, n)].addr > 0
    ensures exists s: nat :: ServedAt(list, Allocated(list, n), list[BlockFit(list, n)].addr, s, n)
  {
    var b := list[BlockFit(list, n)];
    assert Aligned(b);
    AllocatedKeeps(list, n);
    AllocatedCovers(list, n);
    hide Allocated, Ordered, Coalesced, Covers, LiveAt, Holds, BlockFit, FreeAt;
    assert ServedAt(list, Allocated(list, n), b.addr, Carved(b, n)[0].size, n);
  }

  lemma FreedSound(list: seq<Block>, obtained: seq<Range>, free: seq<Range>, i: nat)
    requires Sound(list, obtained, free) && i < |list| && !list[i].free
    ensures Sound(Merged(Freed(list, i)), obtained, free)
    ensures OneLessLive(list, Merged(Freed(list, i)), list[i].addr)
  {
    FreedKeeps(list, i);
    MergedKeeps(Freed(list, i));
    hide Merged, Freed, Ordered, Coalesced, Covers, LiveAt, Holds;
  }

  function PageBlock(base: nat, pages: nat): Block
    requires pages > 0
  {
    Block(base, pages * PAGE_SIZE - HEADER, true)
  }

  lemma GrownSound(list: seq<Block>, obtained: seq<Range>, free: seq<Range>, free': seq<Range>, base: nat, count: nat,
                   n: nat)
    requires Sound(list, obtained, free) && count > 0 && FreeRun(free, base, count)
    requires forall a: nat :: Holds(free', a) <==> Holds(free, a) && !Within(base, base + count * PAGE_SIZE, a)
    ensures var list' := Merged(Inserted(list, PageBlock(base, count)));
            && Sound(list', obtained + [Range(base, count)], free') && SameLive(list, list')
            && (HEADER + n <= count * PAGE_SIZE ==> BlockFit(list', n) < |list'|)
    ensures Rising(list) && Rising(Inserted(list, PageBlock(base, count))) && base > 0
    ensures forall i: nat | i < |list| :: list[i].addr != base
  {
    var block := PageBlock(base, count);
    FreshBlock(list, free, base, count);
    InsertedKeeps(list, block);
    MergedKeeps(Inserted(list, block));
    if HEADER + n <= count * PAGE_SIZE { GrowthSuffices(list, block, n); }
    OrderedRises(list);
    OrderedRises(Inserted(list, block));
    hide Merged, Inserted, Ordered, Coalesced, Covers, LiveAt, BlockFit, Holds, Canonical, FreeRun, Rising, Inside;
    MoreObtained(obtained, Range(base, count), list, block, Merged(Inserted(list, block)));
  }

  class Heap {
    const pages: Allocator
    var head: nat
    var headers: map<nat, Header>
    ghost var list: seq<Block>
    ghost var obtained: seq<Range>

    ghost predicate Valid()
      reads this, pages, pages.ranges
    {
      Spells(head, headers, list) && pages.Valid() && Sound(list, obtained, pages.View())
    }

    constructor (pages: Allocator)
      requires pages.Valid() && !Holds(pages.View(), 0)
      ensures Valid() && list == [] && this.pages == pages
    {
      this.pages := pages;
      head, headers, list, obtained := 0, map[], [], [];
      new;
      forall a: nat ensures !Holds(obtained, a) { HoldsNone(a); }
    }

    /** `heap_insert_block`: the block's header is written, its link is not. */
    method InsertBlock(b: nat, ghost block: Block)
      requires Spells(head, headers, list) && Rising(list) && b > 0 && block.addr == b
      requires b in headers && headers[b].size == block.size && headers[b].free == block.free
      requires forall i: nat | i < |list| :: list[i].addr != b
      modifies this`head, this`headers, this`list
      ensures Spells(head, headers, list) && list == Inserted(old(list), block)
    {
      var prev, cursor := FindPlace(b);
      ghost var n := BlocksBelow(list, b);
      InsertSpells(head, headers, list, block, n);
      headers := headers[b := headers[b].(next := cursor)];
      if prev == 0 {
        head := b;
      } else {
        headers := headers[prev := headers[prev].(next := b)];
      }
      list := list[..n] + [block] + list[n..];
    }

    method FindPlace(b: nat) returns (prev: nat, cursor: nat)
      requires Spells(head, headers, list)
      ensures var n := BlocksBelow(list, b);
              && prev == (if n == 0 then 0 else list[n - 1].addr) && (n > 0 ==> prev > 0)
              && cursor == (if n < |list| then list[n].addr else 0)
    {
      prev, cursor := 0, head;
      ghost var i: nat := 0;
      assert list[0..] == list;
      assert list != [] ==> SpelledAt(headers, list, 0);
      while cursor != 0 && cursor < b
        invariant i <= |list| && cursor == (if i < |list| then list[i].addr else 0)
        invariant prev == (if i == 0 then 0 else list[i - 1].addr) && (i > 0 ==> prev > 0)
        invariant BlocksBelow(list, b) == i + BlocksBelow(list[i..], b)
        decreases |list| - i
      {
        assert SpelledAt(headers, list, i);
        assert list[i..][1..] == list[i + 1..];
        prev, cursor := cursor, headers[cursor].next;
        i := i + 1;
      }
      assert i < |list| ==> SpelledAt(headers, list, i);
    }

    /** `heap_merge_adjacent` */
    method MergeAdjacent()
      requires Spells(head, headers, list) && Rising(list)
      modifies this`headers, this`list
      ensures Spells(head, headers, list) && list == Merged(old(list))
    {
      hide Merged;
      var block := head;
      ghost var k: nat := 0;
      assert list[..0] + Merged(list[0..]) == Merged(list) by { assert list[0..] == list; }
      assert list != [] ==> SpelledAt(headers, list, 0);
      while block != 0 && headers[block].next != 0
        invariant Spells(head, headers, list) && Rising(list)
        invariant k <= |list| && block == (if k < |list| then list[k].addr else 0)
        invariant block != 0 ==> k < |list| && SpelledAt(headers, list, k)
        invariant list[..k] + Merged(list[k..]) == Merged(old(list))
        decreases |list| - k
      {
        NextSpelled(head, headers, list, k);
        var here, next := headers[block], headers[block].next;
        if here.free && headers[next].free && block + HEADER + here.size == next {
          FuseSpells(head, headers, list, k);
          MergedFuse(list, k);
          headers := headers[block := Header(here.size + HEADER + headers[next].size, true, headers[next].next)];
          list := list[..k] + [Fused(list[k], list[k + 1])] + list[k + 2..];
          assert SpelledAt(headers, list, k);
        } else {
          MergedStep(list, k);
          block := next;
          k := k + 1;
        }
      }
      LastSpelled(head, headers, list, k, block);
      MergedShort(list[k..]);
      assert list[..k] + list[k..] == list;
    }

    /** `heap_alloc_from_list`: first fit, split when a further block fits behind. */
    method AllocFromList(n: nat) returns (p: Option<nat>)
      requires Spells(head, headers, list) && Ordered(list)
      modifies this`headers, this`list
      ensures Spells(head, headers, list)
      ensures if BlockFit(old(list), n) < |old(list)|
              then list == Allocated(old(list), n) && p == Some(old(list)[BlockFit(old(list), n)].addr + HEADER)
              else p == None && list == old(list)
    {
      ghost var was := list;
      var block := FindBlock(n);
      ghost var i := BlockFit(list, n);
      if block == 0 {
        return None;
      }
      assert SpelledAt(headers, list, i);
      AllocSpells(head, headers, list, n);
      ghost var memory := headers;
      if headers[block].size >= n + HEADER + ALIGNMENT {
        var split := block + HEADER + n;
        headers := headers[split := Header(headers[block].size - n - HEADER, true, headers[block].next)];
        headers := headers[block := Header(n, headers[block].free, split)];
      }
      headers := headers[block := headers[block].(free := false)];
      assert headers == CarvedMemory(memory, list[i], n, HeaderOf(list, i).next);
      list := Allocated(list, n);
      p := Some(block + HEADER);
    }

    method FindBlock(n: nat) returns (block: nat)
      requires Spells(head, headers, list)
      ensures var i := BlockFit(list, n);
              if i < |list| then block == list[i].addr > 0 else block == 0
    {
      block := head;
      ghost var i: nat := 0;
      assert list[0..] == list;
      assert list != [] ==> SpelledAt(headers, list, 0);
      while block != 0 && !(headers[block].free && headers[block].size >= n)
        invariant i <= |list| && block == (if i < |list| then list[i].addr else 0)
        invariant block != 0 ==> i < |list| && SpelledAt(headers, list, i)
        invariant BlockFit(list, n) == i + BlockFit(list[i..], n)
        decreases |list| - i
      {
        assert list[i..][1..] == list[i + 1..];
        block := headers[block].next;
        i := i + 1;
        assert i < |list| ==> SpelledAt(headers, list, i);
      }
      assert i < |list| ==> SpelledAt(headers, list, i);
    }

    /** `heap_free_to_list` */
    method FreeToList(p: nat, ghost i: nat)
      requires Spells(head, headers, list) && Ordered(list) && i < |list| && p == list[i].addr + HEADER && !list[i].free
      modifies this`headers, this`list
      ensures Spells(head, headers, list) && list == Merged(Freed(old(list), i))
    {
      hide Merged;
      var block := p - HEADER;
      FreedSpells(head, headers, list, i);
      FreedKeeps(list, i);
      headers := headers[block := headers[block].(free := true)];
      list := Freed(list, i);
      OrderedRises(list);
      MergeAdjacent();
    }

    /** `kfree`: exactly the block goes back; no byte is lost and touching free blocks are joined. */
    method Free(p: nat)
      requires Valid() && (p != 0 ==> p >= HEADER && IsLive(list, p - HEADER))
      modifies this`headers, this`list
      ensures Valid()
      ensures if p == 0 then list == old(list) else OneLessLive(old(list), list, p - HEADER)
    {
      if p == 0 {
        return;
      }
      ghost var i := LiveIndex(list, p - HEADER);
      FreedSound(list, obtained, pages.View(), i);
      SoundOrder(list, obtained, pages.View());
      hide Sound, Merged, Freed, OneLessLive, Spells, Ordered;
      FreeToList(p, i);
    }

    /** `heap_grow`: one more free block, made of fresh pages and joined with its neighbours. */
    method Grow(n: nat) returns (ok: bool)
      requires Valid() && n < WORD && n % ALIGNMENT == 0
      modifies this`head, this`headers, this`list, this`obtained, pages`count, pages.ranges
      ensures Valid()
      ensures ok <==> pages.ready && PagesFor(n) > 0 && exists a: nat :: FreeRun(old(pages.View()), a, PagesFor(n))
      ensures !ok ==> list == old(list) && pages.View() == old(pages.View())
      ensures ok ==> (GrowthFits(n) ==> BlockFit(list, n) < |list|) && Total(pages.View()) < Total(old(pages.View()))
      ensures SameLive(old(list), list)
    {
      hide Sound, Merged, Inserted, SameLive, Spells, Ordered, Holds, FreeRun, Canonical, Taken, BlockFit, PagesFor,
           GrowthFits, Total, PageRanges.FirstFit;
      PagesForExact(n);
      ghost var free := pages.View();
      var got := pages.AllocPages(PagesFor(n));
      if got.None? {
        LiveStays(list);
        return false;
      }
      var base := got.value;
      TakenTotal(free, PagesFor(n));
      GrownSound(list, obtained, free, pages.View(), base, PagesFor(n), n);
      Link(base, PagesFor(n));
      obtained := obtained + [Range(base, PagesFor(n))];
      ok := true;
    }

    /** Writes the header of a run of pages and links it in. */
    method Link(base: nat, count: nat)
      requires Spells(head, headers, list) && count > 0 && base > 0 && Rising(list)
               && Rising(Inserted(list, PageBlock(base, count)))
      requires forall i: nat | i < |list| :: list[i].addr != base
      modifies this`head, this`headers, this`list
      ensures Spells(head, headers, list) && list == Merged(Inserted(old(list), PageBlock(base, count)))
    {
      hide Merged, Inserted, Spells, Rising;
      var h := Header(count * PAGE_SIZE - HEADER, true, 0);
      HeaderElsewhere(head, headers, list, base, h);
      headers := headers[base := h];
      InsertBlock(base, PageBlock(base, count));
      MergeAdjacent();
    }

    /** The first attempt of kmalloc. */
    method AllocateFitting(n: nat) returns (p: Option<nat>, ghost got: nat)
      requires Valid() && n % 8 == 0
      modifies this`headers, this`list
      ensures Valid()
      ensures p.Some? <==> BlockFit(old(list), n) < |old(list)|
      ensures p.None? ==> list == old(list)
      ensures p.Some? ==> p.value > HEADER && ServedAt(old(list), list, p.value - HEADER, got, n)
    {
      hide Sound, Spells, Ordered, Canonical, BlockFit, Allocated, ServedAt, Holds;
      got := 0;
      SoundOrder(list, obtained, pages.View());
      if BlockFit(list, n) < |list| {
        AllocatedSound(list, obtained, pages.View(), n);
        got :| ServedAt(list, Allocated(list, n), list[BlockFit(list, n)].addr, got, n);
      }
      p := AllocFromList(n);
    }

    /** `kmalloc`: a live block of the rounded size and less than a further block more, disjoint from
        every other, at the lowest free block that is large enough; or NULL exactly when neither the
        list nor the allocator can provide it.  The measure shows that it calls itself at most once,
        unless the growth wraps: then it may call itself until no page is left. */
    method Allocate(size: nat) returns (p: Option<nat>, ghost got: nat)
      requires Valid() && size < WORD
      modifies this`head, this`headers, this`list, this`obtained, pages`count, pages.ranges
      ensures Valid()
      ensures p.Some? ==>
                p.value > HEADER && ServedAt(old(list), list, p.value - HEADER, got, AlignSize(size))
      ensures GrowthFits(AlignSize(size)) ==>
                (p.None? <==>
                 || !pages.ready || size == 0
                 || (BlockFit(old(list), AlignSize(size)) == |old(list)|
                     && forall a: nat :: !FreeRun(old(pages.View()), a, PagesFor(AlignSize(size)))))
      ensures p.None? && (GrowthFits(AlignSize(size)) || AlignSize(size) != WORD - ALIGNMENT) ==>
                list == old(list) && pages.View() == old(pages.View())
      ensures p.None? && pages.ready && size > 0 && AlignSize(size) == WORD - ALIGNMENT ==>
                forall a: nat :: !FreeRun(pages.View(), a, 1)
      decreases if BlockFit(list, AlignSize(size)) < |list| then 0
                else if GrowthFits(AlignSize(size)) then 1 else 1 + Total(pages.View())
    {
      hide *;
      got := 0;
      Machine();
      if !pages.ready || size == 0 {
        return None, 0;
      }
      var n := AlignSize(size);
      AlignedBy8(n);
      PagesForExact(n);
      p, got := AllocateFitting(n);
      if p.Some? {
        return;
      }
      NoneFits(list, n);
      var grown := Grow(n);
      if !grown {
        return None, 0;
      }
      ghost var mid := list;
      p, got := Allocate(size);
      if p.Some? {
        SameThenMore(old(list), mid, list, p.value - HEADER, got, n);
      }
    }
  }

  lemma Machine()
    ensures HEADER == 24 && ALIGNMENT == 16 && WORD == 0x1_0000_0000_0000_0000
  {
  }

  lemma AlignedBy8(n: nat)
    ensures n % ALIGNMENT == 0 ==> n % 8 == 0
  {
  }

  lemma SoundOrder(list: seq<Block>, obtained: seq<Range>, free: seq<Range>)
    requires Sound(list, obtained, free)
    ensures Ordered(list)
  {
  }

  lemma LiveStays(list: seq<Block>)
    ensures SameLive(list, list)
  {
  }

  lemma NoneFits(list: seq<Block>, n: nat)
    ensures BlockFit(list, n) == |list| ==> forall c | c in list :: !(c.free && c.size >= n)
  {
  }

  lemma SameThenMore(was: seq<Block>, mid: seq<Block>, list: seq<Block>, addr: nat, size: nat, n: nat)
    requires SameLive(was, mid) && ServedAt(mid, list, addr, size, n)
    requires forall c | c in was :: !(c.free && c.size >= n)
    ensures ServedAt(was, list, addr, size, n)
  {
    SameIsLive(was, mid, addr);
    hide LiveAt, IsLive;
  }

  lemma SameIsLive(was: seq<Block>, mid: seq<Block>, addr: nat)
    requires SameLive(was, mid)
    ensures IsLive(was, addr) ==> IsLive(mid, addr)
  {
    hide LiveAt;
    if IsLive(was, addr) {
      var s: nat :| LiveAt(was, addr, s);
      assert LiveAt(mid, addr, s);
    }
  }

  lemma LiveIndex(list: seq<Block>, addr: nat) returns (i: nat)
    requires IsLive(list, addr)
    ensures i < |list| && list[i].addr == addr && !list[i].free
  {
    var size: nat :| LiveAt(list, addr, size);
    i :| i < |list| && list[i] == Block(addr, size, false);
  }

  lemma FreedSpells(head: nat, memory: Memory, list: seq<Block>, i: nat)
    requires Spells(head, memory, list) && Ordered(list) && i < |list|
    ensures list[i].addr in memory
    ensures Spells(head, memory[list[i].addr := memory[list[i].addr].(free := true)], Freed(list, i))
  {
    assert SpelledAt(memory, list, i);
    AddressOnce(list, i);
    var memory' := memory[list[i].addr := memory[list[i].addr].(free := true)];
    forall k: nat | k < |list| ensures SpelledAt(memory', Freed(list, i), k) {
      assert SpelledAt(memory, list, k);
    }
  }

  /** Writing a header at an address of no block disturbs none. */
  lemma HeaderElsewhere(head: nat, memory: Memory, list: seq<Block>, addr: nat, h: Header)
    requires Spells(head, memory, list) && forall i: nat | i < |list| :: list[i].addr != addr
    ensures Spells(head, memory[addr := h], list)
  {
    var memory' := memory[addr := h];
    forall i: nat | i < |list| ensures SpelledAt(memory', list, i) {
      assert SpelledAt(memory, list, i);
    }
  }

  lemma PageBlockBytes(base: nat, count: nat)
    requires count > 0
    ensures forall a: nat :: Inside(PageBlock(base, count), a) <==> Within(base, base + count * PAGE_SIZE, a)
    ensures base % PAGE_SIZE == 0 && base > 0 ==> Aligned(PageBlock(base, count))
  {
    Eighths(count * 512 - 3);
    Eighths(base / PAGE_SIZE * 512);
  }

  lemma Eighths(k: int)
    ensures (8 * k) % 8 == 0
  {
  }

  lemma RunIsFree(free: seq<Range>, base: nat, count: nat)
    requires FreeRun(free, base, count) && count > 0
    ensures base % PAGE_SIZE == 0 && Holds(free, base)
    ensures forall a: nat | Within(base, base + count * PAGE_SIZE, a) :: Holds(free, a)
  {
    hide Holds;
  }

  /** Pages from the allocator overlap no block. */
  lemma FreshBlock(list: seq<Block>, free: seq<Range>, base: nat, count: nat)
    requires count > 0 && FreeRun(free, base, count) && !Holds(free, 0)
    requires forall a: nat | Covers(list, a) :: !Holds(free, a)
    ensures var block := PageBlock(base, count);
            && base > 0 && Aligned(block)
            && (forall a: nat | Inside(block, a) :: !Covers(list, a))
            && (forall i: nat | i < |list| :: list[i].addr != base)
            && forall a: nat :: Inside(block, a) <==> Within(base, base + count * PAGE_SIZE, a)
  {
    hide Holds, FreeRun, Covers, Inside, Within, Aligned;
    RunIsFree(free, base, count);
    PageBlockBytes(base, count);
    forall i: nat | i < |list| ensures list[i].addr != base {
      StartCovered(list, i);
    }
  }

  lemma StartCovered(list: seq<Block>, i: nat)
    requires i < |list|
    ensures Covers(list, list[i].addr)
  {
    assert Inside(list[i], list[i].addr);
  }

  lemma MoreObtained(obtained: seq<Range>, r: Range, was: seq<Block>, block: Block, list: seq<Block>)
    requires forall a: nat :: Covers(was, a) <==> Holds(obtained, a)
    requires forall a: nat :: Covers(list, a) <==> Covers(was, a) || Inside(block, a)
    requires forall a: nat :: Inside(block, a) <==> Within(r.base, r.End(), a)
    ensures forall a: nat :: Covers(list, a) <==> Holds(obtained + [r], a)
  {
    forall a: nat ensures Covers(list, a) <==> Holds(obtained + [r], a) {
      HoldsConcat(obtained, [r], a);
      HoldsOne(r, a);
    }
  }

  /** The headers after an allocation from block `b`. */
  function CarvedMemory(memory: Memory, b: Block, n: nat, next: nat): Memory
    requires Fits(b, n)
  {
    if b.size >= n + HEADER + ALIGNMENT then
      var split := b.addr + HEADER + n;
      memory[split := Header(b.size - n - HEADER, true, next)][b.addr := Header(n, false, split)]
    else
      memory[b.addr := Header(b.size, false, next)]
  }

  lemma AllocSpells(head: nat, memory: Memory, list: seq<Block>, n: nat)
    requires Spells(head, memory, list) && Ordered(list) && BlockFit(list, n) < |list|
    ensures var i := BlockFit(list, n);
            Spells(head, CarvedMemory(memory, list[i], n, HeaderOf(list, i).next), Allocated(list, n))
  {
    var i := BlockFit(list, n);
    var list' := Allocated(list, n);
    var memory' := CarvedMemory(memory, list[i], n, HeaderOf(list, i).next);
    hide BlockFit, CarvedMemory, Ordered;
    assert SpelledAt(memory, list, i);
    forall k: nat | k < |list'| ensures SpelledAt(memory', list', k) {
      if k < i || k >= i + |Carved(list[i], n)| {
        var o := if k < i then k else k + 1 - |Carved(list[i], n)|;
        assert SpelledAt(memory, list, o);
        OtherHeader(memory, list, i, n, o);
        OtherSpelled(memory, memory', list, i, n, k);
      } else {
        PieceSpelled(memory, list, i, n, k);
      }
    }
  }

  lemma OtherHeader(memory: Memory, list: seq<Block>, i: nat, n: nat, o: nat)
    requires Ordered(list) && i < |list| && Fits(list[i], n) && o < |list| && o != i && list[o].addr in memory
    ensures var memory' := CarvedMemory(memory, list[i], n, HeaderOf(list, i).next);
            list[o].addr in memory' && memory'[list[o].addr] == memory[list[o].addr]
  {
    assert o < i ==> list[o].End() <= list[i].addr;
    assert o > i ==> list[i].End() <= list[o].addr;
  }

  lemma OtherSpelled(memory: Memory, memory': Memory, list: seq<Block>, i: nat, n: nat, k: nat)
    requires i < |list| && Fits(list[i], n)
    requires var pieces := Carved(list[i], n);
             && k + 1 < |list| + |pieces| && (k < i || k >= i + |pieces|)
             && (var o := if k < i then k else k + 1 - |pieces|;
                 SpelledAt(memory, list, o) && list[o].addr in memory' && memory'[list[o].addr] == memory[list[o].addr])
    ensures var list' := list[..i] + Carved(list[i], n) + list[i + 1..]; k < |list'| && SpelledAt(memory', list', k)
  {
    var pieces := Carved(list[i], n);
    var list' := list[..i] + pieces + list[i + 1..];
    var o := if k < i then k else k + 1 - |pieces|;
    assert list'[k] == list[o];
    assert k + 1 < |list'| ==> k + 1 != i ==> list'[k + 1] == list[o + 1];
    assert k + 1 == i ==> list'[k + 1] == pieces[0];
  }

  lemma PieceSpelled(memory: Memory, list: seq<Block>, i: nat, n: nat, k: nat)
    requires i < |list| && Fits(list[i], n) && list[i].addr > 0 && i <= k < i + |Carved(list[i], n)|
    ensures var list' := list[..i] + Carved(list[i], n) + list[i + 1..];
            k < |list'| && SpelledAt(CarvedMemory(memory, list[i], n, HeaderOf(list, i).next), list', k)
  {
    var pieces := Carved(list[i], n);
    var list' := list[..i] + pieces + list[i + 1..];
    assert list'[k] == pieces[k - i];
    assert k + 1 < i + |pieces| ==> list'[k + 1] == pieces[k + 1 - i];
    assert k + 1 == i + |pieces| && k + 1 < |list'| ==> list'[k + 1] == list[i + 1];
  }

  lemma NextSpelled(head: nat, memory: Memory, list: seq<Block>, k: nat)
    requires Spells(head, memory, list) && k < |list| && list[k].addr in memory && memory[list[k].addr].next != 0
    ensures k + 1 < |list| && memory[list[k].addr] == HeaderOf(list, k)
            && memory[list[k].addr].next == list[k + 1].addr > 0
    ensures SpelledAt(memory, list, k + 1)
  {
    assert SpelledAt(memory, list, k);
  }

  lemma LastSpelled(head: nat, memory: Memory, list: seq<Block>, k: nat, block: nat)
    requires Spells(head, memory, list) && k <= |list| && block == (if k < |list| then list[k].addr else 0)
    requires block != 0 ==> block in memory && memory[block].next == 0
    ensures k + 1 >= |list|
  {
    assert k < |list| ==> SpelledAt(memory, list, k);
    assert k + 1 < |list| ==> SpelledAt(memory, list, k + 1);
  }

  lemma MergedFuse(bs: seq<Block>, k: nat)
    requires k + 1 < |bs| && Mergeable(bs[k], bs[k + 1])
    ensures var fused := bs[..k] + [Fused(bs[k], bs[k + 1])] + bs[k + 2..];
            fused[..k] + Merged(fused[k..]) == bs[..k] + Merged(bs[k..])
  {
    var fused := bs[..k] + [Fused(bs[k], bs[k + 1])] + bs[k + 2..];
    assert bs[k..][0] == bs[k] && bs[k..][1] == bs[k + 1] && bs[k..][2..] == bs[k + 2..];
    assert fused[k..] == [Fused(bs[k], bs[k + 1])] + bs[k + 2..];
    assert fused[..k] == bs[..k];
  }

  lemma MergedShort(bs: seq<Block>)
    requires |bs| < 2
    ensures Merged(bs) == bs
  {
  }

  lemma MergedStep(bs: seq<Block>, k: nat)
    requires k + 1 < |bs| && !Mergeable(bs[k], bs[k + 1])
    ensures bs[..k] + Merged(bs[k..]) == bs[..k + 1] + Merged(bs[k + 1..])
  {
    assert bs[k..][1..] == bs[k + 1..];
    assert Merged(bs[k..]) == [bs[k]] + Merged(bs[k + 1..]);
  }
}
