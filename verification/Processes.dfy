/** The life of a foreground process: its space is made, its program loaded and run, and on every
    way out all it took is given back. */
module Processes {
  import opened Bytes
  import opened PageRanges
  import opened PageFrames
  import opened PageTables
  import opened PagingFacts
  import opened BootMaps
  import opened Paging
  import opened ProcessPages
  import opened ProcessNeeds
  import opened ProgramArgs
  import Elf = ElfImage

  const FILE_CAPACITY := 131072
  const FILE_PAGES: nat := 32
  const STACK_PAGES: nat := 16

  /** The address `alloc_pages` returns. */
  function FirstBase(free: seq<Range>, n: nat): nat {
    if FirstFit(free, n) < |free| then free[FirstFit(free, n)].base else 0
  }

  lemma FirstBaseIs(free: seq<Range>, n: nat)
    ensures FirstBase(free, n) == if FirstFit(free, n) < |free| then free[FirstFit(free, n)].base else 0
  {
    hide FirstFit;
  }

  function Block(base: nat, pages: nat): seq<Range> {
    if base == 0 then [] else [Range(base, pages)]
  }

  lemma NoImage(buffer: nat, pages: nat, pages': nat)
    ensures BlocksOf(buffer, 0, pages, 0) == BlocksOf(buffer, 0, pages', 0)
    ensures Block(0, pages) == Block(0, pages')
  {
  }

  lemma Without(buffer: nat, image: nat, imagePages: nat, stack: nat)
    requires Apart(buffer, image, stack)
    ensures image != 0 ==>
              Range(image, imagePages) in BlocksOf(buffer, image, imagePages, stack)
              && BlocksOf(buffer, 0, imagePages, stack) ==
                 BlocksOf(buffer, image, imagePages, stack) - {Range(image, imagePages)}
    ensures stack != 0 ==>
              Range(stack, STACK_PAGES) in BlocksOf(buffer, image, imagePages, stack)
              && BlocksOf(buffer, image, imagePages, 0) ==
                 BlocksOf(buffer, image, imagePages, stack) - {Range(stack, STACK_PAGES)}
    ensures buffer != 0 ==>
              Range(buffer, FILE_PAGES) in BlocksOf(buffer, image, imagePages, stack)
              && BlocksOf(0, image, imagePages, stack) ==
                 BlocksOf(buffer, image, imagePages, stack) - {Range(buffer, FILE_PAGES)}
    ensures Apart(0, image, stack) && Apart(buffer, 0, stack) && Apart(buffer, image, 0)
    ensures forall b, n :: Block(b, n) == if b == 0 then [] else [Range(b, n)]
  {
  }

  ghost predicate OneBase(bs: set<Range>) {
    forall b, c | b in bs && c in bs && b.base == c.base :: b == c
  }

  /** A block that is new joins as image, or as stack. */
  lemma With(buffer: nat, image: nat, imagePages: nat, base: nat)
    ensures base != 0 ==>
              BlocksOf(buffer, base, imagePages, 0) == BlocksOf(buffer, 0, imagePages, 0) + {Range(base, imagePages)}
              && BlocksOf(buffer, image, imagePages, base) ==
                 BlocksOf(buffer, image, imagePages, 0) + {Range(base, STACK_PAGES)}
    ensures base != 0 && Range(base, imagePages) !in BlocksOf(buffer, 0, imagePages, 0)
            && OneBase(BlocksOf(buffer, 0, imagePages, 0) + {Range(base, imagePages)}) ==>
              Apart(buffer, base, 0)
    ensures base != 0 && Range(base, STACK_PAGES) !in BlocksOf(buffer, image, imagePages, 0)
            && OneBase(BlocksOf(buffer, image, imagePages, 0) + {Range(base, STACK_PAGES)})
            && Apart(buffer, image, 0) ==>
              Apart(buffer, image, base)
    ensures forall b, n :: Block(b, n) == if b == 0 then [] else [Range(b, n)]
  {
    if base != 0 {
      var image', stack := Range(base, imagePages), Range(base, STACK_PAGES);
      assert image' in BlocksOf(buffer, 0, imagePages, 0) + {image'};
      assert stack in BlocksOf(buffer, image, imagePages, 0) + {stack};
      assert buffer != 0 ==> Range(buffer, FILE_PAGES) in BlocksOf(buffer, 0, imagePages, 0)
                             && Range(buffer, FILE_PAGES) in BlocksOf(buffer, image, imagePages, 0);
      assert image != 0 ==> Range(image, imagePages) in BlocksOf(buffer, image, imagePages, 0);
    }
  }

  /** No two blocks start at one address. */
  predicate Apart(buffer: nat, image: nat, stack: nat) {
    (buffer != 0 ==> buffer != image && buffer != stack) && (image != 0 ==> image != stack)
  }

  function BlockOf(base: nat, pages: nat): set<Range> {
    if base == 0 then {} else {Range(base, pages)}
  }

  function BlocksOf(buffer: nat, image: nat, imagePages: nat, stack: nat): set<Range> {
    BlockOf(buffer, FILE_PAGES) + BlockOf(image, imagePages) + BlockOf(stack, STACK_PAGES)
  }

  /** What the program sees: its image and its stack in frames of its own, and the kernel's map for
      all the rest. */
  ghost predicate ShowsProcess(o: Before, t: Tables, root: nat, imageBase: nat, image: nat, imagePages: nat,
                               stack: nat) {
    forall k | ValidKey(k) :: Translate(t, root, k) == ProcessView(o, k, imageBase, image, imagePages, stack)
  }

  ghost function ImageView(o: Before, k: Key, imageBase: nat, image: nat, imagePages: nat): Option<Leaf> {
    Overlaid(Translate(o.tables, o.kernel, k), k, imageBase / PAGE_SIZE, image / PAGE_SIZE, imagePages, true, true,
      true)
  }

  ghost function ProcessView(o: Before, k: Key, imageBase: nat, image: nat, imagePages: nat, stack: nat): Option<Leaf> {
    Overlaid(ImageView(o, k, imageBase, image, imagePages), k, Elf.STACK_BASE / PAGE_SIZE, stack / PAGE_SIZE,
      STACK_PAGES,
      true, true, false)
  }

  /** A whole page of the memory the allocator hands out. */
  predicate Framed(a: nat) {
    a < MAX_PHYS && a % PAGE_SIZE == 0
  }

  /** Page by page: writable and executable image, writable stack, a gap between them. */
  lemma ProcessSees(o: Before, v: nat, imageBase: nat, image: nat, imagePages: nat, stack: nat)
    requires v < 0x10_0000_0000 && imageBase % PAGE_SIZE == 0
             && imageBase + imagePages * PAGE_SIZE + Elf.STACK_GAP <= Elf.STACK_BASE
    requires Framed(image) && Framed(stack)
    ensures var p, s := imageBase / PAGE_SIZE, Elf.STACK_BASE / PAGE_SIZE;
            ProcessView(o, PageKey(v), imageBase, image, imagePages, stack) ==
            if p <= v < p + imagePages then Some(Leaf(image + (v - p) * PAGE_SIZE, true, true, true))
            else if s <= v < s + STACK_PAGES then Some(Leaf(stack + (v - s) * PAGE_SIZE, true, true, false))
            else Translate(o.tables, o.kernel, PageKey(v))
    ensures imageBase / PAGE_SIZE + imagePages < Elf.STACK_BASE / PAGE_SIZE
  {
    var k := PageKey(v);
    Frames(imageBase, imagePages);
    SeenFrame(v, imageBase / PAGE_SIZE, image, true);
    SeenFrame(v, Elf.STACK_BASE / PAGE_SIZE, stack, false);
    OverlaidPages(Translate(o.tables, o.kernel, k), imageBase / PAGE_SIZE, image / PAGE_SIZE, imagePages, true, true,
      true,
      v);
    OverlaidPages(ImageView(o, k, imageBase, image, imagePages), Elf.STACK_BASE / PAGE_SIZE, stack / PAGE_SIZE,
      STACK_PAGES,
      true, true, false, v);
    hide Overlaid, Translate, PageKey, FrameLeaf;
  }

  lemma SeenFrame(v: nat, p: nat, backing: nat, executable: bool)
    requires v < 0x10_0000_0000 && Framed(backing)
    ensures p <= v ==> FrameLeaf(backing / PAGE_SIZE + (v - p), true, true, executable) ==
                       Leaf(backing + (v - p) * PAGE_SIZE, true, true, executable)
  {
    if p <= v { FramePlain(backing / PAGE_SIZE + (v - p), true, true, executable); }
    hide FrameLeaf;
  }

  lemma Frames(base: nat, pages: nat)
    requires base % PAGE_SIZE == 0 && base + pages * PAGE_SIZE + Elf.STACK_GAP <= Elf.STACK_BASE
    ensures base / PAGE_SIZE + pages < Elf.STACK_BASE / PAGE_SIZE <= 0x10_0000_0000 - STACK_PAGES
  {
  }

  lemma FirstShown(o: Before, t1: Tables, at1: Places, free1: seq<Range>, t2: Tables, at2: Places, free2: seq<Range>,
                   lost: seq<Range>,
                   root: nat, imageBase: nat, image: nat, imagePages: nat)
    requires Forest(t1, at1, o.kernel) && Forest(t2, at2, o.kernel)
             && Extends(t1, at1, free1, lost, t2, at2, free2, lost, root)
    requires MapsRange(t1, at1, t2, at2, o.kernel, root, imageBase / PAGE_SIZE, image / PAGE_SIZE, imagePages, true,
             true,
             true)
    requires Spot(root, []) in at1 && root != o.kernel
    requires forall k :: Translate(t1, root, k) == Translate(o.tables, o.kernel, k)
    ensures forall k | ValidKey(k) :: Translate(t2, root, k) == ImageView(o, k, imageBase, image, imagePages)
  {
    hide Forest, Extends, MapsRange, Overlaid, Translate;
    forall k | ValidKey(k) ensures Translate(t2, root, k) == ImageView(o, k, imageBase, image, imagePages) {
      RangeTranslates(t1, at1, free1, t2, at2, free2, lost, o.kernel, root, imageBase / PAGE_SIZE, image / PAGE_SIZE,
        imagePages, true, true, true, k);
    }
  }

  lemma ThenShown(o: Before, t2: Tables, at2: Places, free2: seq<Range>, t3: Tables, at3: Places, free3: seq<Range>,
                  lost: seq<Range>,
                  root: nat, imageBase: nat, image: nat, imagePages: nat, stack: nat)
    requires Forest(t2, at2, o.kernel) && Forest(t3, at3, o.kernel)
             && Extends(t2, at2, free2, lost, t3, at3, free3, lost, root)
    requires MapsRange(t2, at2, t3, at3, o.kernel, root, Elf.STACK_BASE / PAGE_SIZE, stack / PAGE_SIZE, STACK_PAGES,
             true,
             true, false)
    requires Spot(root, []) in at2 && root != o.kernel
    requires forall k | ValidKey(k) :: Translate(t2, root, k) == ImageView(o, k, imageBase, image, imagePages)
    ensures ShowsProcess(o, t3, root, imageBase, image, imagePages, stack)
  {
    hide Forest, Extends, MapsRange, Overlaid, Translate, ImageView;
    forall k | ValidKey(k) ensures Translate(t3, root, k) == ProcessView(o, k, imageBase, image, imagePages, stack) {
      RangeTranslates(t2, at2, free2, t3, at3, free3, lost, o.kernel, root, Elf.STACK_BASE / PAGE_SIZE,
        stack / PAGE_SIZE,
        STACK_PAGES, true, true, false, k);
    }
  }

  lemma Numbers()
    ensures FILE_PAGES == 32 && STACK_PAGES == 16 && FILE_CAPACITY == 131072
    ensures Elf.STACK_SIZE == 65536 && Elf.STACK_BASE == 0x80_000F_0000 && Elf.STACK_GAP == 4096
            && Elf.IMAGE_BASE == 0x80_0000_0000
    ensures Elf.IMAGE_LIMIT == 0x80_000E_F000 && CONTEXT_SIZE == 480 && PAGE_SIZE == 4096
            && MAX_PHYS == 0x1_0000_0000
    ensures RangePages(Elf.STACK_BASE, Elf.STACK_SIZE) == STACK_PAGES && WORD == 0x1_0000_0000_0000_0000
    ensures REGION == Elf.IMAGE_BASE / PAGE_SIZE && Elf.STACK_BASE / PAGE_SIZE + STACK_PAGES == REGION_END
  {
  }

  lemma Fits32(base: nat, image: nat, size: nat, stack: nat)
    ensures base + size < Elf.STACK_BASE && Framed(image) && size > 0 ==> RangeFits(base, image, size)
    ensures Framed(stack) ==> RangeFits(Elf.STACK_BASE, stack, Elf.STACK_SIZE)
    ensures (Framed(image) ==> image < WORD) && (Framed(stack) ==> stack < WORD)
  {
  }

  lemma ImageSize(base: nat, pages: nat)
    requires base % PAGE_SIZE == 0 && pages > 0 && base + pages * PAGE_SIZE < 0x1_0000_0000_0000
    ensures RangePages(base, pages * PAGE_SIZE) == pages && (pages * PAGE_SIZE + PAGE_SIZE - 1) / PAGE_SIZE == pages
  {
  }

  /** What there is when the program is entered. */
  datatype Sight = Sight(tables: Tables, at: Places, root: nat, imageBase: nat, image: nat, imagePages: nat,
                         stack: nat, memory: seq<Byte>, entry: nat, context: seq<Byte>, vector: seq<nat>)

  ghost predicate Sees(o: Before, file: seq<Byte>, ws: seq<Str>, kernelEnd: nat, s: Sight) {
    && s.root != 0 && s.image != 0 && s.stack != 0 && Framed(s.image) && Framed(s.stack)
    && ShowsProcess(o, s.tables, s.root, s.imageBase, s.image, s.imagePages, s.stack)
    && HoldsProgram(file, kernelEnd, s.imageBase, s.imagePages, s.memory)
    && s.entry == Elf.Entry(file) && Passed(ws, Elf.STACK_BASE, s.context, s.vector)
  }

  /** What is given back at the end: image, stack and file buffer, then the space's tables. */
  ghost function GivesBack(buffer: nat, s: Sight): seq<Range> {
    [Range(s.image, s.imagePages), Range(s.stack, STACK_PAGES), Range(buffer, FILE_PAGES)]
    + SpaceTables(s.at, s.root)
  }

  /** How a file appears in the file system, and what reading it delivers. */
  datatype Node = Absent | Folder | Found(size: nat, chunks: seq<seq<Byte>>, complete: bool)

  function Streamed(chunks: seq<seq<Byte>>): (bytes: seq<Byte>) {
    if chunks == [] then [] else Streamed(chunks[..|chunks| - 1]) + chunks[|chunks| - 1]
  }

  lemma {:induction false} StreamedJoin(a: seq<seq<Byte>>, b: seq<seq<Byte>>, chunk: seq<Byte>)
    ensures Streamed(a + b) == Streamed(a) + Streamed(b) && Streamed([chunk]) == chunk
    decreases |b|
  {
    assert [chunk][..0] == [];
    if b == [] {
      assert a + b == a;
    } else {
      assert (a + b)[..|a + b| - 1] == a + b[..|b| - 1];
      StreamedJoin(a, b[..|b| - 1], chunk);
    }
  }

  /** How the program came back: through its entry's return, or by an exit call with a status. */
  datatype Return = Return(result: nat, requested: bool, status: nat)

  class Process {
    const pager: Pager
    const args: Arguments
    var active: nat          // the root the processor uses
    var root: nat
    var imageBase: nat
    var imageCapacity: nat
    var imagePages: nat
    var imageBacking: nat
    var stackBacking: nat
    var fileBuffer: nat
    var memory: seq<Byte>    // what the mapped image holds
    var entry: nat
    var context: seq<Byte>   // the arguments as copied to the program's stack
    var vector: seq<nat>     // where they start there
    ghost var took: seq<nat>      // the requests `alloc_pages` met for this run, in turn
    ghost var given: seq<Range>   // the blocks handed to `free_pages`, in turn

    ghost function Blocks(): set<Range>
      reads this`fileBuffer, this`imageBacking, this`imagePages, this`stackBacking
    {
      BlocksOf(fileBuffer, imageBacking, imagePages, stackBacking)
    }

    ghost predicate Distinct()
      reads this`fileBuffer, this`imageBacking, this`stackBacking
    {
      Apart(fileBuffer, imageBacking, stackBacking)
    }

    ghost predicate Books(o: Before, bs: set<Range>)
      reads this`root, this`took, this`given, pager, pager.pages, pager.pages.ranges
    {
      && pager.Valid() && pager.kernel == o.kernel && LowMemory(o)
      && Ledger(o, pager.tables, pager.at, pager.pages.View(), pager.pages.lost, root, bs)
      && Flows(o, took, given, pager.pages.View(), pager.pages.lost)
    }

    ghost function HeldBlocks(): nat
      reads this`fileBuffer, this`imageBacking, this`stackBacking
    {
      (if fileBuffer != 0 then 1 else 0) + (if imageBacking != 0 then 1 else 0) + (if stackBacking != 0 then 1 else 0)
    }

    /** What was taken is given back, held as a block or in use as a table. */
    ghost predicate Counted(o: Before)
      reads this`fileBuffer, this`imageBacking, this`stackBacking, this`took, this`given, pager
    {
      |took| + |o.at| == |given| + HeldBlocks() + |pager.at|
    }

    ghost predicate Good(o: Before)
      reads this`root, this`fileBuffer, this`imageBacking, this`imagePages, this`stackBacking, this`took, this`given,
            pager, pager.pages, pager.pages.ranges
    {
      Books(o, Blocks()) && Distinct() && Counted(o)
    }

    constructor (pager: Pager, args: Arguments, active: nat)
      ensures this.pager == pager && this.args == args && this.active == active
    {
      this.pager, this.args, this.active := pager, args, active;
      root, imageBase, imageCapacity, imagePages, imageBacking, stackBacking, fileBuffer := 0, 0, 0, 0, 0, 0, 0;
      memory, entry, context, vector := [], 0, [], [];
      took, given := [], [];
    }

    lemma BooksHold(o: Before, bs: set<Range>)
      requires Books(o, bs)
      ensures pager.Valid() && pager.pages.Valid() && pager.pages.Shaped() && pager.pages.ready
              && pager.kernel == o.kernel && LowMemory(o)
      ensures Ledger(o, pager.tables, pager.at, pager.pages.View(), pager.pages.lost, root, bs)
      ensures Flows(o, took, given, pager.pages.View(), pager.pages.lost)
      ensures root != 0 ==> Spot(root, []) in pager.at && root != o.kernel
      ensures root == 0 ==> pager.at == o.at
    {
      LedgerSpace(o, pager.tables, pager.at, pager.pages.View(), pager.pages.lost, root, bs);
      hide Flows;
    }

    lemma GoodIs(o: Before)
      requires Good(o)
      ensures Books(o, Blocks()) && Distinct() && Counted(o) && pager.pages.Shaped()
      ensures root == 0 ==> pager.at == o.at
      ensures |took| + |o.at| == |given| + HeldBlocks() + |pager.at|
    {
      BooksHold(o, Blocks());
      hide Books, Blocks;
    }

    lemma IsGood(o: Before)
      requires Books(o, Blocks()) && Distinct()
      requires |took| + |o.at| == |given| + HeldBlocks() + |pager.at|
      ensures Good(o)
    {
      hide Books, Blocks;
    }

    lemma BlocksAre()
      ensures Distinct() <==> Apart(fileBuffer, imageBacking, stackBacking)
      ensures Blocks() == BlocksOf(fileBuffer, imageBacking, imagePages, stackBacking)
      ensures HeldBlocks() == |Block(fileBuffer, FILE_PAGES)| + |Block(imageBacking, imagePages)|
                              + |Block(stackBacking, STACK_PAGES)|
    {
    }

    lemma RootAligned(o: Before, bs: set<Range>)
      requires Books(o, bs) && root != 0
      ensures root % PAGE_SIZE == 0
    {
      hide *;
      BooksHold(o, bs);
      pager.Parts();
      SpotTable(pager.tables, pager.at, pager.kernel, Spot(root, []));
      CleanPages(pager.tables, pager.pages.View(), pager.pages.lost, root);
    }

    lemma BooksAre(o: Before, bs: set<Range>)
      requires pager.Valid() && pager.pages.Shaped() && pager.kernel == o.kernel && LowMemory(o)
      requires Ledger(o, pager.tables, pager.at, pager.pages.View(), pager.pages.lost, root, bs)
      requires Flows(o, took, given, pager.pages.View(), pager.pages.lost)
      ensures Books(o, bs)
    {
    }

    /** `alloc_pages`, for a block the process is to hold. */
    method AllocBlock(n: nat, ghost o: Before, ghost bs: set<Range>) returns (base: nat)
      requires Books(o, bs) && n > 0 && given == []
      modifies this`took, pager.pages`count, pager.pages.ranges
      ensures took == if base != 0 then old(took) + [n] else old(took)
      ensures base != 0 ==> Range(base, n) !in bs && Framed(base) && Books(o, bs + {Range(base, n)})
      ensures base == 0 ==> Books(o, bs)
      ensures base != 0 <==> FirstFit(old(pager.pages.View()), n) < |old(pager.pages.View())|
      ensures base != 0 ==> pager.pages.View() == Taken(old(pager.pages.View()), n)
      ensures base == FirstBase(old(pager.pages.View()), n)
    {
      hide *;
      BooksHold(o, bs);
      ghost var free := pager.pages.View();
      pager.Parts();
      var page := pager.pages.AllocPages(n);
      ghost var free', lost' := pager.Snapshot();
      LedgerSpace(o, pager.tables, pager.at, free, pager.pages.lost, root, bs);
      if page.None? {
        NoFitIn(free, n);
        FirstBaseIs(free, n);
        pager.Whole();
        BooksAre(o, bs);
        return 0;
      }
      base := page.value;
      FirstBaseIs(free, n);
      LedgerTake(o, pager.tables, pager.at, free, pager.pages.lost, root, bs, pager.pages.View(), base, n);
      BlockIsLow(o, base, n);
      RunIsFramed(free, base, n);
      LedgerSpace(o, pager.tables, pager.at, pager.pages.View(), pager.pages.lost, root, bs + {Range(base, n)});
      pager.Whole();
      FlowsTake(o, took, free, pager.pages.lost, n, pager.pages.View());
      took := took + [n];
      BooksAre(o, bs + {Range(base, n)});
    }

    /** `free_pages`, for a block the process holds. */
    method FreeBlock(base: nat, n: nat, ghost o: Before, ghost bs: set<Range>)
      requires Books(o, bs) && Range(base, n) in bs
      modifies this`given, pager.pages`count, pager.pages`lost, pager.pages.ranges
      ensures Books(o, bs - {Range(base, n)}) && given == old(given) + [Range(base, n)]
    {
      hide *;
      BooksHold(o, bs);
      ghost var free, lost := pager.pages.View(), pager.pages.lost;
      pager.Parts();
      HeldOf(o, pager.tables, pager.at, free, lost, root, bs);
      BlockIsClear(pager.tables, free, lost, bs, Range(base, n));
      pager.pages.FreePages(base, n);
      LedgerGive(o, pager.tables, pager.at, free, lost, root, bs, pager.pages.View(), pager.pages.lost, Range(base, n));
      LedgerSpace(o, pager.tables, pager.at, pager.pages.View(), pager.pages.lost, root, bs - {Range(base, n)});
      pager.Whole();
      GivenOne(free, lost, pager.pages.View(), pager.pages.lost, Range(base, n));
      FlowsGive(o, took, given, free, lost, [Range(base, n)], pager.pages.View(), pager.pages.lost);
      given := given + [Range(base, n)];
      BooksAre(o, bs - {Range(base, n)});
    }

    /** The tail both clean-up routines share: the address space goes. */
    method CloseSpace(ghost o: Before)
      requires Good(o)
      modifies this`root, this`given, pager`tables, pager`at, pager.pages`count, pager.pages`lost, pager.pages.ranges
      ensures root == 0 && Good(o) && pager.at == o.at
      ensures given == if old(root) != 0 then old(given) + SpaceTables(old(pager.at), old(root)) else old(given)
    {
      hide *;
      GoodIs(o);
      ghost var bs := Blocks();
      BooksHold(o, bs);
      if root != 0 {
        ghost var free, lost, t, at := pager.pages.View(), pager.pages.lost, pager.tables, pager.at;
        pager.Parts();
        pager.DestroyAddressSpace(root);
        pager.Parts();
        LedgerClose(o, t, at, free, lost, root, bs, pager.pages.View(), pager.pages.lost);
        SpaceTablesOnce(t, at, o.kernel, root);
        FlowsGive(o, took, given, free, lost, SpaceTables(at, root), pager.pages.View(), pager.pages.lost);
        given := given + SpaceTables(at, root);
        root := 0;
        BooksAre(o, bs);
        IsGood(o);
      }
    }

    /** `paging_create_address_space`, on the process's behalf. */
    method OpenSpace(ghost o: Before)
      requires Good(o) && root == 0 && given == []
      modifies this`root, this`took, pager`tables, pager`at, pager.pages`count, pager.pages.ranges
      ensures Good(o) && took == if root != 0 then old(took) + [1] else old(took)
      ensures root != 0 ==> Bare(o, pager.tables, pager.at, root)
                            && forall k :: Translate(pager.tables, root, k) == Translate(o.tables, o.kernel, k)
      ensures root != 0 <==> FirstFit(old(pager.pages.View()), 1) < |old(pager.pages.View())|
      ensures root != 0 ==> pager.pages.View() == Taken(old(pager.pages.View()), 1)
    {
      hide *;
      GoodIs(o);
      ghost var bs := Blocks();
      BooksHold(o, bs);
      ghost var free := pager.pages.View();
      LedgerSpace(o, pager.tables, pager.at, free, pager.pages.lost, root, bs);
      root := pager.CreateAddressSpace();
      pager.Parts();
      if root != 0 {
        BareIs(o, root);
        LedgerOpen(o, free, pager.pages.lost, bs, pager.pages.View(), root);
        NoRoot(o, root);
        FlowsTake(o, took, free, pager.pages.lost, 1, pager.pages.View());
        took := took + [1];
      }
      BooksAre(o, bs);
      IsGood(o);
    }

    /** `paging_map_user_range` for the image. */
    method MapImage(ghost o: Before, ghost bs: set<Range>) returns (ok: bool)
      requires Books(o, bs) && root != 0 && Framed(imageBacking) && Bare(o, pager.tables, pager.at, root)
      requires imageBase % PAGE_SIZE == 0 && imagePages > 0 && imageCapacity == imagePages * PAGE_SIZE
               && Elf.IMAGE_BASE <= imageBase && imageBase + imageCapacity < Elf.STACK_BASE
      requires forall k :: Translate(pager.tables, root, k) == Translate(o.tables, o.kernel, k)
      requires given == []
      modifies this`took, pager`tables, pager`at, pager.pages`count, pager.pages.ranges
      ensures Books(o, bs) && |took| + |old(pager.at)| == |old(took)| + |pager.at| <= |old(took)| + |old(pager.at)| + 3
      ensures ok ==> took == old(took) + [1, 1, 1]
      ensures ok ==> Spot(root, [1, 0, 0]) in pager.at && forall k | ValidKey(k) ::
                Translate(pager.tables, root, k) == ImageView(o, k, imageBase, imageBacking, imagePages)
      ensures ok <==> Provides(o, old(pager.pages.View()), [])
    {
      hide *;
      Numbers();
      Numbered();
      ImageSize(imageBase, imagePages);
      BooksHold(o, bs);
      ghost var free, t, at := pager.pages.View(), pager.tables, pager.at;
      BareFacts(o, t, at, root);
      ProvidesLast(o, free);
      pager.Parts();
      ghost var mapped;
      Fits32(imageBase, imageBacking, imageCapacity, stackBacking);
      ok, mapped := pager.MapRange(root, imageBase, imageBacking, imageCapacity, true, true, true);
      pager.Parts();
      CanonicalView(pager);
      ImageMaps(o, t, at, free, pager.tables, pager.at, pager.pages.View(), pager.pages.lost, root,
        imageBase / PAGE_SIZE, imagePages, ok, mapped);
      LedgerExtends(o, t, at, free, pager.pages.lost, root, bs, pager.tables, pager.at, pager.pages.View());
      FlowsPaid(o, took, at, free, pager.pages.lost, pager.at, pager.pages.View());
      OnesCount(|pager.at| - |at|);
      took := took + Ones(|pager.at| - |at|);
      BooksAre(o, bs);
      if ok {
        FirstShown(o, t, at, free, pager.tables, pager.at, pager.pages.View(), pager.pages.lost, root, imageBase,
          imageBacking, imagePages);
      }
    }

    /** `paging_map_user_range` for the stack: by now nothing can stop it. */
    method MapStack(ghost o: Before, ghost bs: set<Range>) returns (ok: bool)
      requires Books(o, bs) && root != 0 && Framed(stackBacking) && Spot(root, [1, 0, 0]) in pager.at
      requires forall k | ValidKey(k) ::
                 Translate(pager.tables, root, k) == ImageView(o, k, imageBase, imageBacking, imagePages)
      modifies pager`tables, pager`at, pager.pages`count, pager.pages.ranges
      ensures Books(o, bs) && |pager.at| == |old(pager.at)|
      ensures ok && ShowsProcess(o, pager.tables, root, imageBase, imageBacking, imagePages, stackBacking)
    {
      hide *;
      Numbers();
      BooksHold(o, bs);
      ghost var free, t, at := pager.pages.View(), pager.tables, pager.at;
      pager.Parts();
      ghost var mapped;
      Fits32(imageBase, imageBacking, imageCapacity, stackBacking);
      ok, mapped := pager.MapRange(root, Elf.STACK_BASE, stackBacking, Elf.STACK_SIZE, true, false, true);
      pager.Parts();
      LedgerExtends(o, t, at, free, pager.pages.lost, root, bs, pager.tables, pager.at, pager.pages.View());
      StackNew(t, at, free, pager.tables, pager.at, pager.pages.View(), pager.pages.lost, o.kernel, root,
        Elf.STACK_BASE / PAGE_SIZE, STACK_PAGES);
      BooksAre(o, bs);
      BooksHold(o, bs);
      InExtended(t, at, free, pager.tables, pager.at, pager.pages.View(), pager.pages.lost, root);
      if !ok {
        StackMaps(pager.tables, pager.at, pager.pages.View(), o.kernel, root, Elf.STACK_BASE / PAGE_SIZE + mapped);
      }
      ThenShown(o, t, at, free, pager.tables, pager.at, pager.pages.View(), pager.pages.lost, root, imageBase,
        imageBacking, imagePages, stackBacking);
    }

    /** Each block held goes back once. */
    method GiveImage(ghost o: Before)
      requires Good(o)
      modifies this`imageBacking, this`given, pager.pages`count, pager.pages`lost, pager.pages.ranges
      ensures Good(o) && imageBacking == 0 && given == old(given) + Block(old(imageBacking), imagePages)
    {
      hide *;
      Numbers();
      GoodIs(o);
      BlocksAre();
      Without(fileBuffer, imageBacking, imagePages, stackBacking);
      if imageBacking != 0 {
        FreeBlock(imageBacking, imagePages, o, Blocks());
        imageBacking := 0;
        BlocksAre();
        IsGood(o);
      }
    }

    method GiveStack(ghost o: Before)
      requires Good(o)
      modifies this`stackBacking, this`given, pager.pages`count, pager.pages`lost, pager.pages.ranges
      ensures Good(o) && stackBacking == 0 && given == old(given) + Block(old(stackBacking), STACK_PAGES)
    {
      hide *;
      Numbers();
      GoodIs(o);
      BlocksAre();
      Without(fileBuffer, imageBacking, imagePages, stackBacking);
      if stackBacking != 0 {
        FreeBlock(stackBacking, STACK_PAGES, o, Blocks());
        stackBacking := 0;
        BlocksAre();
        IsGood(o);
      }
    }

    method GiveBuffer(ghost o: Before)
      requires Good(o)
      modifies this`fileBuffer, this`given, pager.pages`count, pager.pages`lost, pager.pages.ranges
      ensures Good(o) && fileBuffer == 0 && given == old(given) + Block(old(fileBuffer), FILE_PAGES)
    {
      hide *;
      Numbers();
      GoodIs(o);
      BlocksAre();
      Without(fileBuffer, imageBacking, imagePages, stackBacking);
      if fileBuffer != 0 {
        FreeBlock(fileBuffer, FILE_PAGES, o, Blocks());
        fileBuffer := 0;
        BlocksAre();
        IsGood(o);
      }
    }

    /** The `fail:` section of `process_prepare_address_space`. */
    method GiveUp(ghost o: Before)
      requires Good(o)
      modifies this`root, this`imageBacking, this`stackBacking, this`given, pager`tables, pager`at, pager.pages`count,
               pager.pages`lost, pager.pages.ranges
      ensures Good(o) && root == 0 && imageBacking == 0 && stackBacking == 0
    {
      hide *;
      GiveStack(o);
      GiveImage(o);
      CloseSpace(o);
    }

    /** `process_prepare_address_space`: the program's own pages, or nothing at all. */
    method PrepareAddressSpace(ghost o: Before) returns (ok: bool)
      requires Good(o) && root == 0 && imageBacking == 0 && stackBacking == 0 && given == []
      requires imageBase % PAGE_SIZE == 0 && imagePages > 0 && imageCapacity == imagePages * PAGE_SIZE
               && Elf.IMAGE_BASE <= imageBase && imageBase + imageCapacity < Elf.STACK_BASE
      modifies this`root, this`imageBacking, this`stackBacking, this`took, this`given, pager`tables, pager`at,
               pager.pages`count, pager.pages`lost, pager.pages.ranges
      ensures Good(o) && |took| <= |old(took)| + 6
      ensures ok ==> given == [] && took == old(took) + [1, imagePages, STACK_PAGES, 1, 1, 1]
      ensures ok <==> Provides(o, old(pager.pages.View()), [1, imagePages, STACK_PAGES])
      ensures ok ==> root != 0 && imageBacking != 0 && stackBacking != 0 && Framed(imageBacking) && Framed(stackBacking)
                     && ShowsProcess(o, pager.tables, root, imageBase, imageBacking, imagePages, stackBacking)
      ensures !ok ==> root == 0 && imageBacking == 0 && stackBacking == 0
    {
      hide *;
      Numbers();
      GoodIs(o);
      ProvidesThree(o, pager.pages.View(), imagePages, STACK_PAGES);
      OpenSpace(o);
      if root == 0 {
        return false;
      }
      ok := FillSpace(o);
      if !ok {
        GiveUp(o);
      }
    }

    /** What `process_prepare_address_space` does once it has a root. */
    method FillSpace(ghost o: Before) returns (ok: bool)
      requires Good(o) && root != 0 && imageBacking == 0 && stackBacking == 0 && given == []
      requires Bare(o, pager.tables, pager.at, root)
      requires imageBase % PAGE_SIZE == 0 && imagePages > 0 && imageCapacity == imagePages * PAGE_SIZE
               && Elf.IMAGE_BASE <= imageBase && imageBase + imageCapacity < Elf.STACK_BASE
      requires forall k :: Translate(pager.tables, root, k) == Translate(o.tables, o.kernel, k)
      modifies this`imageBacking, this`stackBacking, this`took, pager`tables, pager`at, pager.pages`count,
               pager.pages.ranges
      ensures Good(o) && |took| <= |old(took)| + 5
      ensures ok ==> took == old(took) + [imagePages, STACK_PAGES, 1, 1, 1]
      ensures var free := old(pager.pages.View());
              ok <==> FirstFit(free, imagePages) < |free|
                      && var free1 := Taken(free, imagePages);
                         FirstFit(free1, STACK_PAGES) < |free1| && Provides(o, Taken(free1, STACK_PAGES), [])
      ensures ok ==> imageBacking != 0 && stackBacking != 0 && Framed(imageBacking) && Framed(stackBacking)
                     && ShowsProcess(o, pager.tables, root, imageBase, imageBacking, imagePages, stackBacking)
    {
      hide *;
      Numbers();
      TakeImage(o);
      if imageBacking == 0 {
        return false;
      }
      TakeStack(o);
      if stackBacking == 0 {
        return false;
      }
      ok := MapBoth(o);
    }

    /** Pages for the image. */
    method TakeImage(ghost o: Before)
      requires Good(o) && imageBacking == 0 && stackBacking == 0 && imagePages > 0 && given == []
      modifies this`imageBacking, this`took, pager.pages`count, pager.pages.ranges
      ensures Good(o) && took == if imageBacking != 0 then old(took) + [imagePages] else old(took)
      ensures imageBacking != 0 <==> FirstFit(old(pager.pages.View()), imagePages) < |old(pager.pages.View())|
      ensures imageBacking != 0 ==>
                Framed(imageBacking) && pager.pages.View() == Taken(old(pager.pages.View()), imagePages)
    {
      hide *;
      GoodIs(o);
      BlocksAre();
      var base := AllocBlock(imagePages, o, Blocks());
      With(fileBuffer, base, imagePages, base);
      if base != 0 { BlocksApart(o, Blocks() + {Range(base, imagePages)}); }
      imageBacking := base;
      BlocksAre();
      IsGood(o);
    }

    /** Pages for the stack. */
    method TakeStack(ghost o: Before)
      requires Good(o) && stackBacking == 0 && given == []
      modifies this`stackBacking, this`took, pager.pages`count, pager.pages.ranges
      ensures Good(o) && took == if stackBacking != 0 then old(took) + [STACK_PAGES] else old(took)
      ensures stackBacking != 0 <==> FirstFit(old(pager.pages.View()), STACK_PAGES) < |old(pager.pages.View())|
      ensures stackBacking != 0 ==>
                Framed(stackBacking) && pager.pages.View() == Taken(old(pager.pages.View()), STACK_PAGES)
    {
      hide *;
      Numbers();
      GoodIs(o);
      BlocksAre();
      var base := AllocBlock(STACK_PAGES, o, Blocks());
      With(fileBuffer, imageBacking, imagePages, base);
      if base != 0 { BlocksApart(o, Blocks() + {Range(base, STACK_PAGES)}); }
      stackBacking := base;
      BlocksAre();
      IsGood(o);
    }

    /** Image and stack are mapped. */
    method MapBoth(ghost o: Before) returns (ok: bool)
      requires Good(o) && root != 0 && Framed(imageBacking) && Framed(stackBacking)
      requires Bare(o, pager.tables, pager.at, root)
      requires imageBase % PAGE_SIZE == 0 && imagePages > 0 && imageCapacity == imagePages * PAGE_SIZE
               && Elf.IMAGE_BASE <= imageBase && imageBase + imageCapacity < Elf.STACK_BASE
      requires forall k :: Translate(pager.tables, root, k) == Translate(o.tables, o.kernel, k)
      requires given == []
      modifies this`took, pager`tables, pager`at, pager.pages`count, pager.pages.ranges
      ensures Good(o) && |took| <= |old(took)| + 3
      ensures ok ==> took == old(took) + [1, 1, 1]
      ensures ok <==> Provides(o, old(pager.pages.View()), [])
      ensures ok ==> ShowsProcess(o, pager.tables, root, imageBase, imageBacking, imagePages, stackBacking)
    {
      hide *;
      GoodIs(o);
      ghost var bs := Blocks();
      ok := MapImage(o, bs);
      if ok {
        ok := MapStack(o, bs);
      }
      IsGood(o);
    }

    /** Blocks at one address would be one block. */
    lemma BlocksApart(o: Before, bs: set<Range>)
      requires Books(o, bs)
      ensures OneBase(bs)
    {
      HeldOf(o, pager.tables, pager.at, pager.pages.View(), pager.pages.lost, root, bs);
      SameBase(pager.tables, pager.pages.View(), pager.pages.lost, bs);
    }

    /** `process_release_address_space` */
    method ReleaseAddressSpace(ghost o: Before)
      requires Good(o)
      modifies this`root, this`imageBacking, this`stackBacking, this`fileBuffer, this`given,
               pager`tables, pager`at, pager.pages`count, pager.pages`lost, pager.pages.ranges
      ensures Books(o, {}) && root == 0 && imageBacking == 0 && stackBacking == 0 && fileBuffer == 0
      ensures |given| == |took| && pager.at == o.at
      ensures given == old(given) + Block(old(imageBacking), imagePages) + Block(old(stackBacking), STACK_PAGES)
                       + Block(old(fileBuffer), FILE_PAGES)
                       + if old(root) != 0 then SpaceTables(old(pager.at), old(root)) else []
    {
      hide *;
      GiveImage(o);
      GiveStack(o);
      GiveBuffer(o);
      CloseSpace(o);
      NothingHeld(o);
    }

    lemma NothingHeld(o: Before)
      requires Good(o) && imageBacking == 0 && stackBacking == 0 && fileBuffer == 0 && pager.at == o.at
      ensures Books(o, {}) && |given| == |took|
    {
      hide Books;
      assert Blocks() == {};
    }

    /** `paging_activate_root` */
    method ActivateRoot(r: nat)
      modifies this`active
      ensures active == if AlignDown(r) != 0 then AlignDown(r) else old(active)
    {
      var masked := AlignDown(r);
      if masked != 0 {
        active := masked;
      }
    }

    /** The reading half of `process_load_binary`: the file arrives in pieces, and is taken only if
        they fit the buffer and add up to the size it is listed with. */
    method ReadProgram(node: Node) returns (ok: bool, file: seq<Byte>)
      ensures ok <==> Readable(node)
      ensures ok ==> file == Streamed(node.chunks)
    {
      file := [];
      if !node.Found? {
        return false, [];
      }
      if node.size > FILE_CAPACITY {
        return false, [];
      }
      for i := 0 to |node.chunks|
        invariant file == Streamed(node.chunks[..i])
      {
        assert node.chunks[..i + 1][..i] == node.chunks[..i];
        LongerStream(node.chunks, i + 1);
        if |file| + |node.chunks[i]| > FILE_CAPACITY {
          return false, [];
        }
        file := file + node.chunks[i];
      }
      assert node.chunks[..|node.chunks|] == node.chunks;
      if !node.complete {
        return false, [];
      }
      ok := |file| == node.size;
    }

    /** Image, stack and memory are those of the program `file`. */
    ghost predicate Ready(o: Before, file: seq<Byte>, ws: seq<Str>, kernelEnd: nat)
      reads this`root, this`imageBase, this`imageBacking, this`imagePages, this`stackBacking, this`memory, this`entry,
            this`context, this`vector, pager
    {
      && root != 0 && imageBacking != 0 && stackBacking != 0 && Framed(imageBacking) && Framed(stackBacking)
      && ShowsProcess(o, pager.tables, root, imageBase, imageBacking, imagePages, stackBacking)
      && HoldsProgram(file, kernelEnd, imageBase, imagePages, memory)
      && entry == Elf.Entry(file) && Passed(ws, Elf.STACK_BASE, context, vector)
    }

    lemma ReadyIs(o: Before, file: seq<Byte>, ws: seq<Str>, kernelEnd: nat)
      requires Ready(o, file, ws, kernelEnd)
      ensures root != 0 && imageBacking != 0 && stackBacking != 0
    {
      hide ShowsProcess, HoldsProgram, Passed;
    }

    /** `process_load_binary` */
    method LoadBinary(node: Node, kernelEnd: nat, ghost ws: seq<Str>, ghost o: Before) returns (ok: bool)
      requires Good(o) && root == 0 && imageBacking == 0 && stackBacking == 0 && args.Holds(ws) && args.argc == |ws|
      requires active > 0 && active % PAGE_SIZE == 0 && given == []
      modifies this`root, this`active, this`imageBase, this`imageCapacity, this`imagePages, this`imageBacking,
               this`stackBacking, this`memory, this`entry, this`context, this`vector, this`took, this`given,
               pager`tables, pager`at, pager.pages`count, pager.pages`lost, pager.pages.ranges
      ensures Good(o) && active == old(active) && |took| <= |old(took)| + 6
      ensures ok ==> Readable(node) && Ready(o, Streamed(node.chunks), ws, kernelEnd)
                     && given == [] && took == old(took) + [1, imagePages, STACK_PAGES, 1, 1, 1]
      ensures !(Readable(node) && Elf.Judged(Streamed(node.chunks), kernelEnd).Accepted?) ==>
                root == 0 && imageBacking == 0 && stackBacking == 0 && given == [] && took == old(took)
                && pager.at == old(pager.at)
      ensures ok <==> Readable(node) && Affords(o, old(pager.pages.View()), [], Streamed(node.chunks), kernelEnd)
    {
      hide *;
      GoodIs(o);
      AffordsNothing(o, pager.pages.View(), node, kernelEnd);
      var file;
      ok, file := ReadProgram(node);
      if !ok {
        return;
      }
      FoundIs(node);
      var verdict := Elf.Configure(file, kernelEnd);
      if !verdict.Accepted? {
        return false;
      }
      LayoutFits(file, kernelEnd);
      Numbers();
      AffordsIs(o, pager.pages.View(), file, kernelEnd);
      SetLayout(verdict.layout, o);
      ok := PrepareAddressSpace(o);
      if !ok {
        return;
      }
      ok := CopyInSpace(file, kernelEnd, ws, o);
    }

    method SetLayout(l: Elf.Layout, ghost o: Before)
      requires Good(o) && imageBacking == 0 && stackBacking == 0 && l.base <= l.end
      modifies this`imageBase, this`imageCapacity, this`imagePages, this`entry
      ensures Good(o) && entry == l.entry && imageBase == l.base && imageCapacity == l.end - l.base
              && imagePages == PagesFor(imageCapacity)
    {
      hide *;
      GoodIs(o);
      BlocksAre();
      imageBase, imageCapacity := l.base, l.end - l.base;
      NoImage(fileBuffer, imagePages, PagesFor(imageCapacity));
      imagePages := PagesFor(imageCapacity);
      entry := l.entry;
      BlocksAre();
      IsGood(o);
    }

    /** The end of `process_load_binary`: over to the program's space, and back. */
    method CopyInSpace(file: seq<Byte>, kernelEnd: nat, ghost ws: seq<Str>, ghost o: Before) returns (ok: bool)
      requires Elf.Judged(file, kernelEnd).Accepted? && args.Holds(ws) && args.argc == |ws| && Good(o)
      requires var l := Elf.Judged(file, kernelEnd).layout;
               imageBase == l.base && imageCapacity == l.end - l.base == imagePages * PAGE_SIZE
      requires root != 0 && imageBacking != 0 && stackBacking != 0 && Framed(imageBacking) && Framed(stackBacking)
      requires ShowsProcess(o, pager.tables, root, imageBase, imageBacking, imagePages, stackBacking)
      requires active > 0 && active % PAGE_SIZE == 0 && entry == Elf.Entry(file)
      modifies this`active, this`memory, this`context, this`vector
      ensures Good(o) && active == old(active) && ok && Ready(o, file, ws, kernelEnd)
    {
      hide *;
      var previous := active;
      ActivateRoot(root);
      ok := CopyProgram(file, kernelEnd, ws);
      ActivateRoot(previous);
      Aligned(previous);
      IsReady(o, file, ws, kernelEnd);
    }

    lemma IsReady(o: Before, file: seq<Byte>, ws: seq<Str>, kernelEnd: nat)
      requires root != 0 && imageBacking != 0 && stackBacking != 0 && Framed(imageBacking) && Framed(stackBacking)
      requires ShowsProcess(o, pager.tables, root, imageBase, imageBacking, imagePages, stackBacking)
      requires HoldsProgram(file, kernelEnd, imageBase, imagePages, memory)
      requires entry == Elf.Entry(file) && Passed(ws, Elf.STACK_BASE, context, vector)
      ensures Ready(o, file, ws, kernelEnd)
    {
      hide ShowsProcess, HoldsProgram, Passed, Framed, Elf.Entry;
    }

    /** The steps of `process_load_binary` in the program's own space. */
    method CopyProgram(file: seq<Byte>, kernelEnd: nat, ghost ws: seq<Str>) returns (ok: bool)
      requires Elf.Judged(file, kernelEnd).Accepted? && args.Holds(ws) && args.argc == |ws|
      requires var l := Elf.Judged(file, kernelEnd).layout;
               imageBase == l.base && imageCapacity == l.end - l.base == imagePages * PAGE_SIZE
      modifies this`memory, this`context, this`vector
      ensures ok && HoldsProgram(file, kernelEnd, imageBase, imagePages, memory)
      ensures Passed(ws, Elf.STACK_BASE, context, vector)
    {
      hide *;
      Elf.AcceptedCopies(file, kernelEnd);
      Numbers();
      ok, context, vector := args.Stage(Elf.STACK_BASE, Elf.STACK_SIZE, ws);
      if ok {
        ok, memory := FillImage(file, kernelEnd);
      }
    }

    method FillImage(file: seq<Byte>, kernelEnd: nat) returns (ok: bool, bytes: seq<Byte>)
      requires Elf.Judged(file, kernelEnd).Accepted?
      requires var l := Elf.Judged(file, kernelEnd).layout;
               imageBase == l.base && imageCapacity == l.end - l.base == imagePages * PAGE_SIZE
      ensures ok && HoldsProgram(file, kernelEnd, imageBase, imagePages, bytes)
    {
      hide *;
      Elf.AcceptedCopies(file, kernelEnd);
      var image := new Byte[imageCapacity](_ => 0);
      var segments := Elf.Segments(file);
      ok := Elf.CopySegments(file, segments, imageBase, image);
      bytes := image[..];
      ProgramHeld(file, kernelEnd, imageBase, imagePages, bytes);
    }

    /** The reset in `process_init`, of the fields that matter here. */
    method Reset()
      modifies this`root, this`imageBase, this`imageCapacity, this`imagePages, this`imageBacking, this`stackBacking,
               this`fileBuffer, this`memory, this`entry, this`context, this`vector, this`took, this`given
      ensures root == 0 && imageBacking == 0 && stackBacking == 0 && fileBuffer == 0 && took == [] && given == []
    {
      root, imageBase, imageCapacity, imagePages, imageBacking, stackBacking, fileBuffer := 0, 0, 0, 0, 0, 0, 0;
      memory, entry, context, vector := [], 0, [], [];
      took, given := [], [];
    }

    /** What the process finds. */
    ghost method Look() returns (o: Before)
      requires pager.Valid() && root == 0 && took == [] && given == [] && Spot(active, []) in pager.at
               && pager.at[Spot(active, [])] == active
      requires forall a: nat | Returned(pager.pages.View(), pager.pages.lost, a) :: a < MAX_PHYS
      ensures pager.pages.Shaped()
              && o == Before(pager.tables, pager.at, pager.kernel, pager.pages.View(), pager.pages.lost)
      ensures Books(o, {}) && Canonical(o.free) && Clean(o.tables, o.free, o.lost) && active > 0
              && active % PAGE_SIZE == 0 && |o.free| <= MAX_RANGES
    {
      pager.Parts();
      o := Before(pager.tables, pager.at, pager.kernel, pager.pages.View(), pager.pages.lost);
      LedgerStart(o);
      FlowsStart(o);
      SpotTable(pager.tables, pager.at, pager.kernel, Spot(active, []));
      CleanPages(pager.tables, pager.pages.View(), pager.pages.lost, active);
      hide Forest, Clean, Returned, Canonical;
    }

    /** All is as it was at the start, as far as the calls of `free_pages` could make it. */
    ghost predicate Settled(o: Before)
      reads this`took, this`given, pager, pager.pages, pager.pages.ranges
    {
      && pager.Valid() && pager.pages.Shaped() && pager.tables == o.tables && pager.at == o.at
      && o.lost <= pager.pages.lost
      && (forall a: nat :: Returned(pager.pages.View(), pager.pages.lost, a) <==> Returned(o.free, o.lost, a))
      && Flows(o, took, given, pager.pages.View(), pager.pages.lost) && |given| == |took| <= 7
      && (|o.free| + 7 <= MAX_RANGES || pager.pages.lost == o.lost ==>
            pager.pages.lost == o.lost && pager.pages.View() == o.free)
    }

    lemma SettledIs(o: Before)
      requires Settled(o)
      ensures pager.Valid() && pager.pages.Shaped() && pager.tables == o.tables && pager.at == o.at
              && o.lost <= pager.pages.lost && |given| == |took| <= 7
      ensures forall a: nat :: Returned(pager.pages.View(), pager.pages.lost, a) <==> Returned(o.free, o.lost, a)
      ensures Flows(o, took, given, pager.pages.View(), pager.pages.lost)
      ensures Served(o.free, took).Some?
              && Given(Served(o.free, took).value, o.lost, given, pager.pages.View(), pager.pages.lost)
      ensures |o.free| + 7 <= MAX_RANGES || pager.pages.lost == o.lost ==>
                pager.pages.lost == o.lost && pager.pages.View() == o.free
    {
      hide Served, Given, Returned;
    }

    /** The books closed. */
    lemma Settle(o: Before)
      requires Books(o, {}) && root == 0 && Canonical(o.free) && Clean(o.tables, o.free, o.lost)
      requires |given| == |took| <= 7
      ensures Settled(o)
    {
      BooksHold(o, {});
      pager.Parts();
      LedgerEnd(o, pager.tables, pager.at, pager.pages.View(), pager.pages.lost);
      if |o.free| + 7 <= MAX_RANGES {
        FlowsKeeps(o, took, given, pager.pages.View(), pager.pages.lost);
      }
      hide Ledger, Returned, Forest, Clean, Flows;
    }

    /** Every way out after the first page was asked for. */
    method Close(ghost o: Before)
      requires Good(o) && Canonical(o.free) && Clean(o.tables, o.free, o.lost) && |took| <= 7
      modifies this`root, this`imageBacking, this`stackBacking, this`fileBuffer, this`given,
               pager`tables, pager`at, pager.pages`count, pager.pages`lost, pager.pages.ranges
      ensures Settled(o)
      ensures given == old(given) + Block(old(imageBacking), imagePages) + Block(old(stackBacking), STACK_PAGES)
                       + Block(old(fileBuffer), FILE_PAGES)
                       + if old(root) != 0 then SpaceTables(old(pager.at), old(root)) else []
    {
      hide *;
      ReleaseAddressSpace(o);
      Settle(o);
    }

    /** The file buffer, taken first and given back last. */
    method TakeBuffer(ghost o: Before) returns (ok: bool)
      requires Books(o, {}) && fileBuffer == 0 && imageBacking == 0 && stackBacking == 0
      requires took == [] && given == [] && pager.at == o.at
      modifies this`fileBuffer, this`took, pager.pages`count, pager.pages.ranges
      ensures Good(o) && (ok <==> fileBuffer != 0) && |took| <= 1 && took == if ok then [FILE_PAGES] else []
      ensures fileBuffer == FirstBase(old(pager.pages.View()), FILE_PAGES)
      ensures ok <==> FirstFit(old(pager.pages.View()), FILE_PAGES) < |old(pager.pages.View())|
      ensures ok ==> pager.pages.View() == Taken(old(pager.pages.View()), FILE_PAGES)
    {
      hide Books, FirstFit, Taken;
      fileBuffer := AllocBlock(FILE_PAGES, o, {});
      assert Blocks() == if fileBuffer == 0 then {} else {} + {Range(fileBuffer, FILE_PAGES)};
      ok := fileBuffer != 0;
    }

    /** The program's turn: its root is active when it is entered, and the kernel's again when it
        has come back. */
    method Enter(ghost o: Before, ghost file: seq<Byte>, ghost ws: seq<Str>, kernelEnd: nat)
                 returns (ghost sight: Sight)
      requires Good(o) && Ready(o, file, ws, kernelEnd) && active % PAGE_SIZE == 0 && active > 0
      modifies this`active
      ensures active == old(active) && Good(o) && Sees(o, file, ws, kernelEnd, sight)
      ensures sight.at == pager.at && sight.root == root && sight.image == imageBacking
              && sight.imagePages == imagePages
              && sight.stack == stackBacking
    {
      hide ShowsProcess, HoldsProgram, Books, Passed, Elf.Entry;
      var kernelRoot := active;
      RootAligned(o, Blocks());
      Aligned(root);
      ActivateRoot(root);
      // the program runs here, in its own pages
      sight := Sight(pager.tables, pager.at, active, imageBase, imageBacking, imagePages, stackBacking, memory, entry,
        context, vector);
      ActivateRoot(kernelRoot);
      Aligned(kernelRoot);
    }

    /** `process_run_foreground`: the program is entered, its own pages in place, exactly if command
        line, file and image are in order and memory suffices.  Whatever happens, afterwards the
        tables are what they were, the processor is back on its old root, and as many blocks were
        handed to `free_pages` as were taken, at most seven: the array and the blocks lost are what
        these calls make of it.  So with seven ranges to spare the array is the very same. */
    method RunForeground(command: Str, line: Str, node: Node, kernelEnd: nat, exit: Return)
      returns (ok: bool, ghost ran: bool, ghost sight: Sight)
      requires pager.Valid() && args.Shaped() && Spot(active, []) in pager.at && pager.at[Spot(active, [])] == active
      requires forall a: nat | Returned(pager.pages.View(), pager.pages.lost, a) :: a < MAX_PHYS
      modifies this, args`argc, args.buffer, args.argv,
               pager`tables, pager`at, pager.pages`count, pager.pages`lost, pager.pages.ranges
      ensures pager.Valid() && pager.tables == old(pager.tables) && pager.at == old(pager.at) && active == old(active)
      ensures old(pager.pages.lost) <= pager.pages.lost
      ensures forall a: nat :: Returned(pager.pages.View(), pager.pages.lost, a) <==>
                               Returned(old(pager.pages.View()), old(pager.pages.lost), a)
      ensures Served(old(pager.pages.View()), took).Some?
              && Given(Served(old(pager.pages.View()), took).value, old(pager.pages.lost), given, pager.pages.View(),
                   pager.pages.lost)
      ensures |given| == |took| <= 7
      ensures ran ==> took == [FILE_PAGES, 1, sight.imagePages, STACK_PAGES, 1, 1, 1]
                      && given == GivesBack(FirstBase(old(pager.pages.View()), FILE_PAGES), sight)
      ensures |old(pager.pages.View())| + 7 <= MAX_RANGES || pager.pages.lost == old(pager.pages.lost) ==>
                pager.pages.lost == old(pager.pages.lost) && pager.pages.View() == old(pager.pages.View())
      ensures Fits(command, line) && FirstFit(old(pager.pages.View()), FILE_PAGES) < |old(pager.pages.View())|
              && !(Readable(node) && Elf.Judged(Streamed(node.chunks), kernelEnd).Accepted?) ==>
                BufferBack(old(pager.pages.View()), old(pager.pages.lost), pager.pages.View(), pager.pages.lost)
      ensures var o := Before(old(pager.tables), old(pager.at), old(pager.kernel), old(pager.pages.View()),
              old(pager.pages.lost));
              && (ran <==> Fits(command, line) && Readable(node)
                           && Affords(o, o.free, [FILE_PAGES], Streamed(node.chunks), kernelEnd))
              && (ran ==> Sees(o, Streamed(node.chunks), All(command, line), kernelEnd, sight))
      ensures ok <==> ran && exit.result != 0 && exit.requested && exit.status == 0
    {
      hide *;
      Reset();
      ghost var o := Look();
      ok, ran, sight := Work(command, line, node, kernelEnd, exit, o);
      SettledIs(o);
    }

    /** The same, once the fields are reset. */
    method Work(command: Str, line: Str, node: Node, kernelEnd: nat, exit: Return, ghost o: Before)
      returns (ok: bool, ghost ran: bool, ghost sight: Sight)
      requires args.Shaped() && Books(o, {}) && Canonical(o.free) && Clean(o.tables, o.free, o.lost)
      requires |o.free| <= MAX_RANGES && o.free == pager.pages.View()
      requires root == 0 && imageBacking == 0 && stackBacking == 0 && fileBuffer == 0 && took == [] && given == []
      requires active > 0 && active % PAGE_SIZE == 0
      modifies this, args`argc, args.buffer, args.argv,
               pager`tables, pager`at, pager.pages`count, pager.pages`lost, pager.pages.ranges
      ensures Settled(o) && active == old(active)
      ensures ran <==> Fits(command, line) && Readable(node)
                       && Affords(o, o.free, [FILE_PAGES], Streamed(node.chunks), kernelEnd)
      ensures ran ==> Sees(o, Streamed(node.chunks), All(command, line), kernelEnd, sight)
                      && took == [FILE_PAGES, 1, sight.imagePages, STACK_PAGES, 1, 1, 1]
                      && given == GivesBack(FirstBase(o.free, FILE_PAGES), sight)
      ensures Fits(command, line) && FirstFit(o.free, FILE_PAGES) < |o.free|
              && !(Readable(node) && Elf.Judged(Streamed(node.chunks), kernelEnd).Accepted?) ==>
                BufferBack(o.free, o.lost, pager.pages.View(), pager.pages.lost)
      ensures ok <==> ran && exit.result != 0 && exit.requested && exit.status == 0
    {
      hide *;
      Numbers();
      BooksHold(o, {});
      sight := Sight(map[], map[], 0, 0, 0, 0, 0, [], 0, [], []);
      ran := false;
      ok := args.Tokenize(command, line);
      if !ok {
        Settle(o);
        return;
      }
      ghost var ws := All(command, line);
      AffordsNext(o, node, kernelEnd);
      FirstBaseIs(o.free, FILE_PAGES);
      ok := TakeBuffer(o);
      if !ok {
        Close(o);
        return;
      }
      ok, ran, sight := Attempt(node, kernelEnd, ws, exit, o);
    }

    /** With the file buffer in hand. */
    method Attempt(node: Node, kernelEnd: nat, ghost ws: seq<Str>, exit: Return, ghost o: Before)
      returns (ok: bool, ghost ran: bool, ghost sight: Sight)
      requires Good(o) && Canonical(o.free) && Clean(o.tables, o.free, o.lost) && |o.free| <= MAX_RANGES
      requires FirstFit(o.free, FILE_PAGES) < |o.free| && args.Holds(ws) && args.argc == |ws|
      requires root == 0 && imageBacking == 0 && stackBacking == 0 && took == [FILE_PAGES] && given == []
      requires fileBuffer != 0 && fileBuffer == FirstBase(o.free, FILE_PAGES) && active > 0 && active % PAGE_SIZE == 0
      modifies this, pager`tables, pager`at, pager.pages`count, pager.pages`lost, pager.pages.ranges
      ensures Settled(o) && active == old(active)
      ensures ran <==> Readable(node) && Affords(o, old(pager.pages.View()), [], Streamed(node.chunks), kernelEnd)
      ensures ran ==> Sees(o, Streamed(node.chunks), ws, kernelEnd, sight)
                      && took == [FILE_PAGES, 1, sight.imagePages, STACK_PAGES, 1, 1, 1]
                      && given == GivesBack(FirstBase(o.free, FILE_PAGES), sight)
      ensures !(Readable(node) && Elf.Judged(Streamed(node.chunks), kernelEnd).Accepted?) ==>
                BufferBack(o.free, o.lost, pager.pages.View(), pager.pages.lost)
      ensures ok <==> ran && exit.result != 0 && exit.requested && exit.status == 0
    {
      hide *;
      Numbers();
      sight := Sight(map[], map[], 0, 0, 0, 0, 0, [], 0, [], []);
      ran := false;
      ok := LoadBinary(node, kernelEnd, ws, o);
      if !ok {
        ghost var bare, buffer := root == 0 && imageBacking == 0 && stackBacking == 0 && given == [], fileBuffer;
        Close(o);
        SettledIs(o);
        BlocksGiven(0, imagePages, 0, buffer, []);
        if bare && took == [FILE_PAGES] { BufferOnly(o, given, pager.pages.View(), pager.pages.lost); }
        return;
      }
      FoundIs(node);
      sight := Enter(o, Streamed(node.chunks), ws, kernelEnd);
      ran := true;
      ok := exit.result != 0 && exit.requested && exit.status == 0;
      BlocksGiven(imageBacking, imagePages, stackBacking, fileBuffer, SpaceTables(pager.at, root));
      GivesBackIs(fileBuffer, sight);
      ReadyIs(o, Streamed(node.chunks), ws, kernelEnd);
      Close(o);
    }
  }

  /** The file buffer was taken and given back: all is as before, or, if the array is full without
      it, the buffer's pages are lost. */
  predicate BufferBack(free: seq<Range>, lost: seq<Range>, free': seq<Range>, lost': seq<Range>)
    requires FirstFit(free, FILE_PAGES) < |free|
  {
    if |Taken(free, FILE_PAGES)| < MAX_RANGES then free' == free && lost' == lost
    else free' == Taken(free, FILE_PAGES) && lost' == lost + [Range(FirstBase(free, FILE_PAGES), FILE_PAGES)]
  }

  lemma BufferOnly(o: Before, given: seq<Range>, free: seq<Range>, lost: seq<Range>)
    requires Canonical(o.free) && |o.free| <= MAX_RANGES && FirstFit(o.free, FILE_PAGES) < |o.free|
    requires Flows(o, [FILE_PAGES], given, free, lost) && given == [Range(FirstBase(o.free, FILE_PAGES), FILE_PAGES)]
    ensures BufferBack(o.free, o.lost, free, lost)
  {
    hide Taken, FirstFit, Served, Given, Canonical;
    ServedOne(o.free, FILE_PAGES);
    TakenGiven(o.free, FILE_PAGES, o.lost, free, lost);
  }

  /** Such an array: 256 ranges of 33 pages, with a page in use between any two. */
  function FullArray(): (rs: seq<Range>)
    ensures |rs| == MAX_RANGES
  {
    seq(MAX_RANGES, i requires 0 <= i < MAX_RANGES => Range((i + 1) * 34 * PAGE_SIZE, 33))
  }

  lemma FullArrayIs()
    ensures Canonical(FullArray()) && forall a: nat | Returned(FullArray(), [], a) :: a < MAX_PHYS
    ensures FirstFit(FullArray(), FILE_PAGES) == 0 && |Taken(FullArray(), FILE_PAGES)| == MAX_RANGES
    ensures FirstBase(FullArray(), FILE_PAGES) == 0x22000
  {
    var rs := FullArray();
    forall i: nat | i < |rs| ensures rs[i] == Range((i + 1) * 0x22000, 33) {
    }
    assert FirstFit(rs, FILE_PAGES) == 0;
  }

  lemma OneWord()
    ensures Fits(['x' as int], []) && !Readable(Absent)
  {
    var ws := All(['x' as int], []);
    assert ws == [['x' as int]];
    LaidSnoc([], ['x' as int]);
    assert [] + [['x' as int]] == ws;
  }

  lemma LostBuffer(free: seq<Range>, lost: seq<Range>)
    ensures FirstFit(FullArray(), FILE_PAGES) < MAX_RANGES
    ensures BufferBack(FullArray(), [], free, lost) ==>
              lost == [Range(0x22000, FILE_PAGES)] && |free| == MAX_RANGES && free[0] == Range(0x42000, 1)
  {
    FullArrayIs();
    hide FirstFit, FirstBase, Canonical, Holds;
  }

  /** A program that is not there costs the kernel 32 pages. */
  method MissingProgram(p: Process, kernelEnd: nat, exit: Return) returns (ok: bool)
    requires p.pager.Valid() && p.args.Shaped() && Spot(p.active, []) in p.pager.at
             && p.pager.at[Spot(p.active, [])] == p.active
    requires p.pager.pages.View() == FullArray() && p.pager.pages.lost == []
    modifies p, p.args`argc, p.args.buffer, p.args.argv, p.pager`tables, p.pager`at, p.pager.pages`count,
             p.pager.pages`lost, p.pager.pages.ranges
    ensures p.pager.Valid() && p.pager.pages.Shaped()
    ensures !ok && p.pager.pages.lost == [Range(0x22000, FILE_PAGES)]
            && |p.pager.pages.View()| == MAX_RANGES && p.pager.pages.View()[0] == Range(0x42000, 1)
  {
    hide *;
    FullArrayIs();
    OneWord();
    ghost var ran, sight;
    ok, ran, sight := p.RunForeground(['x' as int], [], Absent, kernelEnd, exit);
    CanonicalView(p.pager);
    LostBuffer(p.pager.pages.View(), p.pager.pages.lost);
  }

  lemma BlocksGiven(image: nat, imagePages: nat, stack: nat, buffer: nat, tables: seq<Range>)
    ensures buffer != 0 && image != 0 && stack != 0 ==>
              [] + Block(image, imagePages) + Block(stack, STACK_PAGES) + Block(buffer, FILE_PAGES) + tables ==
              [Range(image, imagePages), Range(stack, STACK_PAGES), Range(buffer, FILE_PAGES)] + tables
    ensures buffer != 0 && image == 0 && stack == 0 && tables == [] ==>
              [] + Block(image, imagePages) + Block(stack, STACK_PAGES) + Block(buffer, FILE_PAGES) + tables ==
              [Range(buffer, FILE_PAGES)]
  {
  }

  lemma GivesBackIs(buffer: nat, s: Sight)
    ensures GivesBack(buffer, s) ==
            [Range(s.image, s.imagePages), Range(s.stack, STACK_PAGES), Range(buffer, FILE_PAGES)]
            + SpaceTables(s.at, s.root)
  {
  }

  lemma RunIsFramed(free: seq<Range>, base: nat, n: nat)
    requires FreeRun(free, base, n) && base < MAX_PHYS
    ensures Framed(base)
  {
  }

  lemma NoFitIn(free: seq<Range>, n: nat)
    requires Canonical(free) && n > 0 && forall a: nat :: !FreeRun(free, a, n)
    ensures !(FirstFit(free, n) < |free|)
  {
    hide FreeRun, Canonical;
    NoFit(free, n);
  }

  lemma CanonicalView(pager: Pager)
    requires pager.Valid()
    ensures pager.pages.Shaped() && Canonical(pager.pages.View())
  {
    hide Forest, Clean;
  }

  lemma HeldOf(o: Before, t: Tables, at: Places, free: seq<Range>, lost: seq<Range>, root: nat, bs: set<Range>)
    requires Ledger(o, t, at, free, lost, root, bs)
    ensures Held(t, free, lost, bs)
  {
    hide Held;
  }

  lemma CleanPages(t: Tables, free: seq<Range>, lost: seq<Range>, f: nat)
    requires Clean(t, free, lost) && f in t
    ensures f > 0 && f % PAGE_SIZE == 0
  {
    assert InUse(free, lost, f);
  }

  lemma Aligned(r: nat)
    ensures r % PAGE_SIZE == 0 ==> AlignDown(r) == r
  {
  }

  lemma {:induction false} LongerStream(chunks: seq<seq<Byte>>, i: nat)
    requires i <= |chunks|
    ensures |Streamed(chunks[..i])| <= |Streamed(chunks)|
    decreases |chunks|
  {
    if i < |chunks| {
      var front := chunks[..|chunks| - 1];
      assert front[..i] == chunks[..i];
      LongerStream(front, i);
    } else {
      assert chunks[..i] == chunks;
    }
  }

  ghost predicate Readable(node: Node) {
    node.Found? && node.complete && |Streamed(node.chunks)| == node.size <= FILE_CAPACITY
  }

  /** The file is a program the loader accepts, and from the free pages `first` and then its own
      requests are met: a root, the image and the stack. */
  ghost predicate Affords(o: Before, free: seq<Range>, first: seq<nat>, file: seq<Byte>, kernelEnd: nat) {
    && Elf.Judged(file, kernelEnd).Accepted?
    && var l := Elf.Judged(file, kernelEnd).layout;
       l.base <= l.end && Provides(o, free, first + [1, PagesFor(l.end - l.base), STACK_PAGES])
  }

  lemma AffordsNothing(o: Before, free: seq<Range>, node: Node, kernelEnd: nat)
    ensures Readable(node) && !Elf.Judged(Streamed(node.chunks), kernelEnd).Accepted? ==>
              !Affords(o, free, [], Streamed(node.chunks), kernelEnd)
  {
  }

  lemma AffordsIs(o: Before, free: seq<Range>, file: seq<Byte>, kernelEnd: nat)
    requires Elf.Judged(file, kernelEnd).Accepted?
    ensures var l := Elf.Judged(file, kernelEnd).layout;
            l.base <= l.end ==>
              (Affords(o, free, [], file, kernelEnd) <==> Provides(o, free, [1, PagesFor(l.end - l.base), STACK_PAGES]))
  {
    var l := Elf.Judged(file, kernelEnd).layout;
    if l.base <= l.end {
      assert [] + [1, PagesFor(l.end - l.base), STACK_PAGES] == [1, PagesFor(l.end - l.base), STACK_PAGES];
    }
    hide Provides, Elf.Judged;
  }

  lemma AffordsNext(o: Before, node: Node, kernelEnd: nat)
    ensures Readable(node) ==>
              var file := Streamed(node.chunks);
              Affords(o, o.free, [FILE_PAGES], file, kernelEnd) <==>
              FirstFit(o.free, FILE_PAGES) < |o.free| && Affords(o, Taken(o.free, FILE_PAGES), [], file, kernelEnd)
  {
    if Readable(node) {
      var verdict := Elf.Judged(Streamed(node.chunks), kernelEnd);
      if verdict.Accepted? && verdict.layout.base <= verdict.layout.end {
        var rest := [1, PagesFor(verdict.layout.end - verdict.layout.base), STACK_PAGES];
        assert [] + rest == rest;
        ProvidesNext(o, o.free, FILE_PAGES, rest);
      }
    }
    hide Provides, Elf.Judged, Streamed, FirstFit, Taken;
  }

  /** A condition that is easy to check: one long enough range of free pages, and no table of the
      kernel's for the process region. */
  lemma LongRunAffords(o: Before, file: seq<Byte>, kernelEnd: nat)
    requires Elf.Judged(file, kernelEnd).Accepted? && Spot(o.kernel, [1]) !in o.at
    requires var l := Elf.Judged(file, kernelEnd).layout;
             l.base <= l.end && LongRun(o.free, FILE_PAGES + 1 + PagesFor(l.end - l.base) + STACK_PAGES + TABLES)
    ensures Affords(o, o.free, [FILE_PAGES], file, kernelEnd)
  {
    var l := Elf.Judged(file, kernelEnd).layout;
    var ns := [FILE_PAGES] + [1, PagesFor(l.end - l.base), STACK_PAGES];
    SumFour(FILE_PAGES, 1, PagesFor(l.end - l.base), STACK_PAGES);
    assert ns == [FILE_PAGES, 1, PagesFor(l.end - l.base), STACK_PAGES];
    hide Elf.Judged, LongRun, Provides;
    LongRunServes(o, o.free, ns);
  }

  /** The image's memory: the program's loaded segments, the last one on top, over zeros. */
  ghost predicate HoldsProgram(file: seq<Byte>, kernelEnd: nat, base: nat, pages: nat, memory: seq<Byte>) {
    && Elf.Judged(file, kernelEnd).Accepted?
    && var l := Elf.Judged(file, kernelEnd).layout;
       && base == l.base && l.end == l.base + pages * PAGE_SIZE && |memory| == pages * PAGE_SIZE
       && Elf.HeaderOk(file) && Elf.AllInFile(Elf.Segments(file), |Elf.Segments(file)|, |file|)
       && forall i: nat | i < |memory| ::
         memory[i] == Elf.Loaded(file, Elf.Segments(file), |Elf.Segments(file)|, base + i)
  }

  lemma ProgramHeld(file: seq<Byte>, kernelEnd: nat, base: nat, pages: nat, memory: seq<Byte>)
    requires Elf.Judged(file, kernelEnd).Accepted? && Elf.HeaderOk(file)
    requires base == Elf.Judged(file, kernelEnd).layout.base
             && Elf.Judged(file, kernelEnd).layout.end == base + pages * PAGE_SIZE
    requires |memory| == pages * PAGE_SIZE && Elf.AllInFile(Elf.Segments(file), |Elf.Segments(file)|, |file|)
    requires forall i: nat | i < |memory| ::
             memory[i] == Elf.Loaded(file, Elf.Segments(file), |Elf.Segments(file)|, base + i)
    ensures HoldsProgram(file, kernelEnd, base, pages, memory)
  {
    hide Elf.Judged, Elf.HeaderOk, Elf.Segments, Elf.AllInFile, Elf.Loaded;
  }

  /** `bytes_to_pages` */
  function PagesFor(size: nat): nat {
    (size + PAGE_SIZE - 1) / PAGE_SIZE
  }

  lemma LayoutFits(file: seq<Byte>, kernelEnd: nat)
    requires Elf.Judged(file, kernelEnd).Accepted?
    ensures var l := Elf.Judged(file, kernelEnd).layout;
            && l.base < l.end && l.end - l.base == PagesFor(l.end - l.base) * PAGE_SIZE && PagesFor(l.end - l.base) > 0
            && l.base % PAGE_SIZE == 0 && Elf.IMAGE_BASE <= l.base && l.end + Elf.STACK_GAP <= Elf.STACK_BASE
            && l.entry == Elf.Entry(file)
  {
    Elf.AcceptedCopies(file, kernelEnd);
    hide *;
    GapFits(Elf.Judged(file, kernelEnd).layout);
  }

  lemma GapFits(l: Elf.Layout)
    requires Elf.InGap(l)
    ensures l.base < l.end && l.end - l.base == PagesFor(l.end - l.base) * PAGE_SIZE && PagesFor(l.end - l.base) > 0
    ensures l.base % PAGE_SIZE == 0 && Elf.IMAGE_BASE <= l.base && l.end + Elf.STACK_GAP <= Elf.STACK_BASE
  {
  }

  lemma FoundIs(node: Node)
    ensures Readable(node) ==> node.Found?
  {
  }

  lemma SameBase(t: Tables, free: seq<Range>, lost: seq<Range>, bs: set<Range>)
    requires Held(t, free, lost, bs)
    ensures OneBase(bs)
  {
    forall b, c | b in bs && c in bs && b.base == c.base ensures b == c {
      assert Proper(b) && Proper(c);
      assert InRange(b, b.base) && InRange(c, b.base);
    }
  }
}
