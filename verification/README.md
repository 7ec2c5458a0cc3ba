# FunnyOS: storage, memory and processes

A Dafny model of the kernel's storage and memory heart, and of the tool that makes its disk image:
`src/kernel/fat32.c`, `src/kernel/memory.c`, `src/kernel/paging.c`, `src/kernel/path.c`,
`src/kernel/process.c` and `tools/make_fat32_image.py`. Arrays, linked headers, page tables and
process fields that the code updates in place are classes and arrays here; the methods follow the
code's branches and loops and are proved against functions and relations on values, and the
properties of those are lemmas. `dafny verify dfyconfig.toml` checks everything.

**FAT32** (`FatTables`, `FatSlots`, `FatNames`, `FatAliases`, `FatDirectory`, `FatBlocks`,
`FatStore`, `FatData`, `FatImage`, `FatSteps`, `FatLinks`, `FatMoves`, `FatRelocate`, `FatPrune`,
`FatLookup`, `FatVolume`, `FatNaming`, `FatWrites`, `FatMakeDir`, `FatRemove`, `FatRename`,
`FatTree`, `FatPaths`, `FatRuns`, `FatAnswers`, `FatFormats`, `FatLeaks`). Three layers of storage (FAT entries, directory slots of 32 raw
bytes, file bytes over chains) refine a tree of directories that map case-folded names to files and
directories. `ValidImage` is the invariant: chains acyclic, in range, ended and disjoint; directory
slots made of contiguous name groups with unique short names; dots and owners right. `Tree` is the
abstraction. Each operation is proved to return an exactly stated result and to do one simple thing
to the tree; `FatPaths` and `FatRuns` lift that to what is seen at every path and to every sequence
of operations. `FatAnswers` tells every result code from what is seen at the paths given, and
`FatFormats` the bytes on the disk. Names and slots follow the sections "FAT Directory Structure" and "FAT Long Directory
Entries" of the Microsoft FAT32 File System Specification 1.03.

**Memory** (`PageRanges`, `PageFrames`, `HeapBlocks`, `KernelHeap`). The array of free ranges is the
canonical form of a set of pages; the heap's linked headers spell a list of blocks that tile the
pages obtained. Sizes and addresses are those of 64-bit words: where rounding wraps, so does the
model.

**Paging** (`PageTables`, `PagingFacts`, `BootMaps`, `Paging`, `AddressSpaces`). Tables are a map
from frames to 512 entries; a ghost map of places says which table of which address space hangs
where. `Translate` walks the tables as the processor does (Intel SDM Volume 3A, section 4.5) and
yields frame and effective rights.

**Processes** (`ElfImage`, `ProgramArgs`, `ProcessPages`, `ProcessNeeds`, `Processes`). From command line and file
to the program's memory and back. A ledger accounts for every page along the way, what the set-up
needs is a condition on the pages free before it, and the calls of `alloc_pages` and `free_pages` are
told one by one.

**Paths** (`Paths`). Normalisation as a fold over components.

**The image builder** (`ImageLayout`, `BuilderNames`, `BuilderTree`, `BuilderRegistry`,
`BuilderImage`, `ImageBuilder`, `ImageSectors`, `BuiltVolumes`, `BuiltExamples`). Layout, allocation,
boot sector, FAT and data of a source tree, put together into an image of sectors that the kernel
model mounts and reads.

## Findings

Where the code does not do what it seems meant to, the model follows the code. Each finding names
the input and the exact condition.

- **A directory renamed into itself is lost** (`src/kernel/fat32.c:1346-1358`, `1787`). The string
  test is exact on normal paths (`FatRuns.TestExact`) and never refuses wrongly
  (`FatRuns.TestRefusesRightly`), but `fat32_rename("/a", "/A/b")` passes it
  (`FatRuns.TestMisses`) and returns OK (`FatRuns.MissedMove`; `BuiltExamples.DirectoryInItself` builds
  such a volume). The volume stays valid; the directory
  and all below it are no longer reachable and its clusters stay allocated (`FatRename.Rename`,
  `FatPaths.PrunedSeen`). Between normal paths it cannot happen (`FatRuns.NormalNeverLoses`).
- **A rename that only changes case is refused** with ALREADY_EXISTS (`src/kernel/fat32.c:1791-1792`;
  "/a" to "/A" in `FatLeaks.CaseOnlyExample`, all cases in `FatRename.CaseOnlyRefused`), and a rename
  of a string to itself returns OK even if nothing has that name (`src/kernel/fat32.c:1773`;
  `FatRename.SamePaths`).
- **Failed writes and mkdirs keep clusters.** `fat32_write_file` without the room for what it needs
  leaves the free clusters as they were if and only if there were none, or the name held none and
  its data alone does not fit (`FatWrites.WriteLeaks`). Otherwise none is left: a file that grew keeps
  them in its chain (`src/kernel/fat32.c:1078-1089`; `FatLeaks.KeptByFile`), and those taken for a
  new name whose directory turns out full belong to nothing (`src/kernel/fat32.c:1631-1637`;
  `FatLeaks.LostData`). `fat32_make_dir` takes the directory's cluster before it looks for a slot and
  does not give it back (`src/kernel/fat32.c:1685-1716`): after NO_SPACE the free clusters are the
  same if and only if there were none (`FatMakeDir.MakeLeaks`, `FatLeaks.LostDirectory`). No name and
  no content changes in any of these cases (`FatWrites.WriteFile`, `FatMakeDir.MakeDir`).
  `BuiltExamples.FullRoot` and `BuiltExamples.FileAndOneFree` build volumes on which this happens.
- **`split_path` does not check the parent's length** against the 128 bytes its callers provide
  (`src/kernel/fat32.c:680-689`): its writes stay inside if and only if the parent has at most 127 bytes
  (`FatNaming.StoresInside`); "/" and 127 letters, then "/b", is an input for which they do not
  (`FatNaming.LongParent`). Paths that come out of `path_normalize` with a 128-byte buffer, as the
  shell's do (`src/kernel/shell.c:149`), always fit (`FatNaming.NormalFits`).
- **`free_pages` forgets blocks** when 256 ranges are in use, even if the block would only have
  joined a neighbour (`src/kernel/memory.c:83-84`, `465-471`; `PageFrames.Allocator.FreePages`,
  `PageFrames.TakenGiven`). No block of a process run is lost if at most 249 ranges are in use when it
  starts, and none of an address space if ranges and tables together number at most 256
  (`Processes.Process.RunForeground`, `AddressSpaces.UseSpace`, `PageFrames.BackKeeps`). A run that takes
  no more than the file buffer loses it if and only if the array is full without it
  (`Processes.BufferOnly`); `Processes.MissingProgram` is an array for which a command that does not
  exist costs the kernel 32 pages.
- **`append_free_range` misses overlap from the front** (`src/kernel/memory.c:86-92`): what it
  accepts is canonical if and only if no earlier range reaches into it
  (`PageRanges.OverlapBehindBreaks`). So a memory map that offers a page twice is accepted, and the page
  is handed out twice (`PageFrames.OverlapHandsOutTwice`); the UEFI specification (section 7.2) rules
  such maps out.
- **`map_page_2m` cuts off a table** that hangs below its entry, and that page is lost
  (`src/kernel/paging.c:135-155`; `Paging.Pager.MapPage2m`). It happens if and only if there is such a table;
  start-up never calls it there (`Paging.Pager.FillLow`).
- **Sizes near 2^64 wrap.** `kmalloc(2^64 - 1)` rounds to 0 and may return a block of any size
  (`KernelHeap.AlignSizeExact`); for a rounded size of 2^64 - 16 `heap_grow` asks for one page and
  `kmalloc` retries until no page is left (`KernelHeap.PagesForExact`, `KernelHeap.Heap.Allocate`).
  Below those sizes the result is exact.
- **`map_range_in_root` can map nothing and return true**: if the last byte of the range lies in the
  last page of the 64-bit space the rounded end wraps to 0 (`src/kernel/paging.c:211-222`;
  `PagingFacts.RangeCovers`, `Paging.Pager.MapRange`).
- **Some tests never fire**: the overlap test and the three tests on the finished layout in
  `process_configure_image_layout` (`ElfImage.NeverOverlaps`, `ElfImage.AcceptedMeans`), the range
  test when arguments are staged (`ProgramArgs.Arguments.Stage`), and the component limit of
  `push_component` for buffers of up to 258 bytes (`Paths.StackLimitRedundant`).
- **The builder refuses every size of m MiB with m mod 65 = 64**, among them 64 MiB
  (`tools/make_fat32_image.py:34-55`; `ImageLayout.RefusedSizes`): in those cases no FAT size is a
  fixed point (`ImageLayout.FixedExactly`).
- **The kernel mounts images of at most 532510 sectors** (260 MiB); the builder makes larger ones
  (`ImageLayout.BuildThenMount`).
- **The builder accepts names ending in a dot**, which the kernel lists without it: "A." is listed as
  "A", and the path "/A." is an invalid name (`BuilderNames.KeyIs`, `BuilderNames.TrailingDotLost`).

## Model

| member | source | states |
|---|---|---|
| FatRuns.Run | src/kernel/fat32.c:1568-1829 | For every sequence of writes, appends, mkdirs, removes and renames, whether each succeeds or not: the volume invariant holds after every step, every result is exactly the one the state before it calls for (ResultOf), exactly FreeAfter clusters are free then, and at every path the step changes what is seen exactly as a plain path-to-content file system would, and nothing when it fails. |
| FatRuns.Execute | src/kernel/fat32.c:1568-1829 | The same for one operation, through the entry point itself. |
| FatAnswers.LocateTold | src/kernel/fat32.c:660-783 | Which paths the operations accept, from the path and what is seen in the tree alone: InvalidName if the path has fewer than two bytes, does not start with a slash, ends in one, or its last component is no valid name; else what is seen at the front decides, as far as its names are valid: nothing gives NotFound, a file NotADirectory, an invalid name behind a directory InvalidName, and a directory at the whole front is the one found. |
| FatAnswers.ValidPathTold | src/kernel/fat32.c:660-783 | A path of valid names in the right shape is never an invalid name, however deep: it is accepted exactly if a directory is seen at its front; nothing there gives NotFound, and a file there or on the way NotADirectory. |
| FatAnswers.WriteTold | src/kernel/fat32.c:1568-1662 | The result code of every write: that of the path; IS_A_DIRECTORY for a directory; for a file NO_SPACE exactly when the clusters free and those its bytes need fall short of what the new bytes need; for a new name exactly when the free clusters fall short of its data and of one more if its directory has no run of free slots. |
| FatAnswers.MakeTold | src/kernel/fat32.c:1664-1716 | The result code of every mkdir: that of the path, ALREADY_EXISTS exactly if anything is seen there, NO_SPACE exactly without one free cluster, or two if the directory above has no run of free slots. |
| FatAnswers.EraseTold | src/kernel/fat32.c:1718-1751 | The result code of every remove: that of the path, NOT_FOUND if nothing is seen, OK for a file, and for a directory OK exactly if nothing is seen right below it. |
| FatAnswers.MoveTold | src/kernel/fat32.c:1753-1829 | The result code of every rename, test by test in order: equal strings, the old path, the new path, nothing at the old one, a directory into what the string test calls its inside, something at the new one, and then room. |
| FatAnswers.ReadTold | src/kernel/fat32.c:1530-1566 | What ReadFile ensures, told by what is seen: the bytes of the file seen at the path, IS_A_DIRECTORY for a directory, and the error code for everything else. |
| FatAnswers.WriteFreeTold | src/kernel/fat32.c:1568-1662 | How many clusters are free after a write that succeeds: appending takes what the bytes need more, overwriting gives back what the file held and takes what the data needs, and a new name costs its data and a cluster if its directory grew. |
| FatAnswers.MakeFreeTold | src/kernel/fat32.c:1664-1716 | A mkdir that succeeds costs one cluster if its slots find room in the directory above, else two. |
| FatAnswers.EraseFreeTold | src/kernel/fat32.c:1718-1751 | A remove that succeeds frees as many clusters as the chain of the name has. |
| FatAnswers.MoveFreeTold | src/kernel/fat32.c:1753-1829 | A rename that succeeds costs nothing, or one cluster exactly if the new name fits neither over the old one in the same directory nor into free slots. |
| FatRuns.NormalAllowed | src/kernel/path.c:74-98 | Every operation on paths that path_normalize has left in a 128-byte buffer is one that Run covers. |
| FatRuns.ChainsSafe | src/kernel/fat32.c:912-1092 | What the invariant kept by Run means for the FAT: every registered chain starts at its head, never repeats a cluster, stays in range and ends in an end mark; no two chains meet, and no cluster of a chain is free. |
| FatRuns.WrittenIsRead | src/kernel/fat32.c:1530-1662 | After a successful overwrite the walk to the same path finds a file holding exactly the data; after an append, the old bytes followed by the data. |
| FatRuns.WalkMeans | src/kernel/fat32.c:703-761 | Resolving a path string, component by component with case ignored, agrees with following its place in the tree of names; the three error codes mean a missing name, a file on the way, and an invalid component. |
| FatWrites.WriteFile | src/kernel/fat32.c:1568-1662 | The result code is exactly WriteResult (lookup errors, IS_A_DIRECTORY, NO_SPACE if and only if the free clusters fall short of the demand of data and directory growth). On OK the file system differs in this one file, and exactly the clusters the name held became free, exactly those it now holds and one for its directory if that grew were taken, in stated numbers. On NO_SPACE no name or content has changed, and the free clusters are as WriteLeaks says. |
| FatWrites.RewriteFile | src/kernel/fat32.c:1594-1653 | The branch for an existing file: NO_SPACE exactly when fewer clusters are free than the new size needs beyond those held; then every file reads as before, and a file that held clusters has taken every free one. |
| FatWrites.CreateFile | src/kernel/fat32.c:1603-1662 | The branch for a new file: succeeds exactly when data and directory growth find room; a failure leaves every name and content unchanged, and either nothing taken (the data did not fit) or nothing free (its entry did not). |
| FatWrites.WriteLeaks | src/kernel/fat32.c:1078-1662 | A write that ran out of space leaves the free clusters as they were if and only if there were none, or the name held none and fewer were free than its data needs; otherwise it leaves none free. |
| FatLeaks.LostData | src/kernel/fat32.c:1631-1637 | The input: with one free cluster and no free slot in the root, writing one byte to the new name "/a" returns NO_SPACE and leaves no cluster free. |
| BuiltExamples.FullRoot | src/kernel/fat32.c:1631-1716 | Such a volume, built from sixteen empty files in 36 sectors and mounted: both operations fail there and lose its one free cluster. |
| FatLeaks.KeptByFile | src/kernel/fat32.c:1078-1089 | The input: with one free cluster, appending two clusters' worth to the file "/a" returns NO_SPACE and leaves no cluster free. |
| BuiltExamples.FileAndOneFree | src/kernel/fat32.c:1078-1089 | Such a volume, built from one file of 512 bytes in 37 sectors and mounted. |
| FatWrites.ReadFile | src/kernel/fat32.c:1530-1566 | Result code and bytes: the chunks delivered, put together, are exactly the bytes the tree holds for that path; a directory gives IS_A_DIRECTORY, a failed lookup its own code. |
| FatMakeDir.MakeDir | src/kernel/fat32.c:1664-1716 | The result code is exactly MakeDirResult. On OK one new empty directory is entered under the name, exactly its cluster and one more if the parent grew are no longer free, and nothing else changes. Otherwise names and contents are unchanged, and on NO_SPACE no cluster is free. |
| FatMakeDir.MakeLeaks | src/kernel/fat32.c:1685-1716 | A mkdir that ran out of space leaves the free clusters as they were if and only if there were none. |
| FatLeaks.LostDirectory | src/kernel/fat32.c:1685-1716 | The input: with one free cluster and no free slot in the root, creating "/a" returns NO_SPACE and leaves no cluster free. |
| FatRemove.Remove | src/kernel/fat32.c:1718-1751 | The result code is exactly RemoveResult (DIRECTORY_NOT_EMPTY included); on OK one name is gone and exactly the clusters of its chain have become free; otherwise nothing has changed, byte for byte. |
| FatRename.Rename | src/kernel/fat32.c:1753-1829 | The result code is exactly RenameResult; on OK one name moves with its first cluster, size, attributes and subtree, ".." of a moved directory points to the new parent (0 for the root), and the volume is valid in every case; a directory that got past the string test into itself is pruned with all below it; on error nothing has changed, byte for byte. |
| FatRename.CaseOnlyRefused | src/kernel/fat32.c:1791-1792 | Two different paths to one directory with names equal but for case, the first listed and the string test false: the result is ALREADY_EXISTS. |
| FatLeaks.CaseOnlyExample | src/kernel/fat32.c:1791-1792 | The input: renaming "/a" to "/A" returns ALREADY_EXISTS wherever that name is listed. |
| FatRename.SamePaths | src/kernel/fat32.c:1773-1774 | Renaming any path to the same string returns OK. |
| FatRename.MoveInPlace | src/kernel/fat32.c:1804-1812 | The branch that overwrites the old slots: the new name takes their place, the rest of them is marked deleted, and the result is exactly one name renamed. |
| FatRename.MoveElsewhere | src/kernel/fat32.c:1813-1823 | The other branch: NO_SPACE exactly when the target directory is full and no cluster is free, leaving the volume as it was; else the name has left the one directory and stands in the other. |
| FatRename.UpdateDirectoryParent | src/kernel/fat32.c:1265-1278 | Only the cluster field of slot 1, "..", changes, to the given parent. |
| FatRename.PathIsDescendantOf | src/kernel/fat32.c:1346-1358 | The character loop computes exactly the string relation the lemmas below judge. |
| FatRuns.TestExact | src/kernel/fat32.c:1346-1358 | Between paths in normal form the string test says "descendant" if and only if the target directory lies in the moved directory. |
| FatRuns.TestRefusesRightly | src/kernel/fat32.c:1787-1788 | Whatever the paths look like, a move the test refuses would have been one into the moved directory itself. |
| FatRuns.TestMisses | src/kernel/fat32.c:1346-1358 | The test is false for "/a" and "/A/b", although they name a place and one below it. |
| FatRuns.MissedMove | src/kernel/fat32.c:1753-1829 | The concrete consequence: on every volume with a directory A in its root and room for b in it, renaming "/a" to "/A/b" returns OK and moves A into itself. |
| BuiltExamples.DirectoryInItself | src/kernel/fat32.c:1753-1829 | Such a volume, built from one empty directory in 37 sectors and mounted: the rename succeeds and moves it into itself. |
| FatRuns.NormalNeverLoses | src/kernel/fat32.c:1753-1829 | A rename between normal paths that returns OK never moves a directory into itself. |
| FatPrune.PruneStep | src/kernel/fat32.c:1787-1829 | When a directory was moved into itself, the volume without the directory and everything registered below it is a valid volume again, and its file system is the old one with exactly that subtree gone. |
| FatPaths.WriteSeen | src/kernel/fat32.c:1568-1662 | What a write does on every path: at its own the new bytes, below it "not a directory", everywhere else the same as before. |
| FatPaths.MakeSeen | src/kernel/fat32.c:1664-1716 | What a mkdir does on every path. |
| FatPaths.RemoveSeen | src/kernel/fat32.c:1718-1751 | What a remove does on every path: nothing is found at or below its own, all else is as before. |
| FatPaths.MoveSeen | src/kernel/fat32.c:1753-1829 | What a move does on every path: whatever was found below the old place is found below the new one, nothing at the old one, all else as before. |
| FatPaths.PrunedSeen | src/kernel/fat32.c:1753-1829 | What a move into itself does on every path: nothing is found at or below the directory any more, all else is as before. |
| FatTree.TreeRooted | src/kernel/fat32.c:703-761 | Every valid volume is a tree: one root, every other directory the child of exactly one name. |
| FatTree.OnePath | src/kernel/fat32.c:703-761 | A place leads to a directory if and only if it is the one path registered for it, so no directory is reached in two ways. |
| FatVolume.Volume.ResolvePath | src/kernel/fat32.c:703-761 | The cursor loop over the path computes exactly the walk over its components, result codes included. |
| FatNaming.LookupParentAndName | src/kernel/fat32.c:1335-1344 | Splits at the last slash and resolves the parent exactly as Locate says, with the error codes of all three steps. |
| FatNaming.SplitPath | src/kernel/fat32.c:660-701 | Into the callers' two 128-byte arrays: parent and name with their terminators, OK exactly for paths that split with a name of at most 127 bytes; given that the parent fits, no write leaves its array. |
| FatNaming.StoresInside | src/kernel/fat32.c:680-689 | Every write of split_path to the parent's buffer lies in it if and only if the parent has at most 127 bytes. |
| FatNaming.LongParent | src/kernel/fat32.c:680-689 | The input: a path whose parent has 128 bytes, for which a byte behind the buffer would be written. |
| FatNaming.NormalFits | src/kernel/path.c:74-98 | What path_normalize leaves in a 128-byte buffer always has a parent that fits. |
| FatNaming.FindFreeEntry | src/kernel/fat32.c:1151-1209 | Room for the slots in a row, by growing the directory by one zeroed cluster if needed; NO_SPACE exactly when there is neither a run nor a free cluster; no name or content changes. |
| FatNaming.EnterName | src/kernel/fat32.c:1631-1637 | The common end of write and mkdir: exactly one name joins the directory, or on NO_SPACE nothing changes. |
| FatVolume.BuildNameEntries | src/kernel/fat32.c:595-648 | INVALID_NAME exactly for invalid names; otherwise the slots stand for exactly this name with a short name no other entry of the directory uses, and the search for it ends. |
| FatVolume.SearchAlias | src/kernel/fat32.c:613-618 | The alias loop terminates below 10^7 with an alias not in use, all earlier ones being in use. |
| FatTables.FatTable.TrimClusterChain | src/kernel/fat32.c:935-967 | On a chain, what is left is its first "required" clusters; every other cluster of it is free afterwards and no other entry has changed; length 0 frees it all. |
| FatTables.FatTable.FreeClusterChain | src/kernel/fat32.c:924-933 | Ends on any FAT contents, cyclic ones included (each round frees a cluster), and computes the walk judged by FreeWalkClearsChain. |
| FatTables.FreeWalkClearsChain | src/kernel/fat32.c:924-933 | On a proper chain the walk frees exactly the clusters of the chain. |
| FatTables.FatTable.FindFreeCluster | src/kernel/fat32.c:912-922 | The lowest free cluster, or 0 exactly when none is free. |
| FatTables.FatTable.AppendClusterToChain | src/kernel/fat32.c:969-994 | The chain is longer by one formerly free cluster and no other entry changes, or NO_SPACE exactly when none is free, and nothing changes. |
| FatTables.ChainAcyclic | src/kernel/fat32.c:173-197 | A sequence of clusters each of which is the successor of the one before, ending in an end mark, never visits a cluster twice. |
| FatData.AllocateChain | src/kernel/fat32.c:1002-1044 | A zeroed chain of exactly "count" formerly free clusters, or NO_SPACE exactly when fewer are free, with the FAT and the disk exactly as found. |
| FatData.EnsureLength | src/kernel/fat32.c:1065-1092 | NO_SPACE exactly when too few clusters are free; the old clusters stay in front, those gained were free and are zeroed; a failed attempt changes nothing for a new chain and takes every free cluster for an old one. |
| FatData.WriteDataToChain | src/kernel/fat32.c:1280-1322 | The bytes of the chain are the old ones with the data in place from the offset on, for every offset and length across cluster borders; no other cluster changes. |
| Bytes.SpliceAt | src/kernel/fat32.c:1299-1314 | What "in place" means byte by byte. |
| FatWrites.StoreData | src/kernel/fat32.c:1611-1647 | Fitting the chain and writing: the chain then starts with the kept front followed by the data. |
| FatStore.Store.FindEntry | src/kernel/fat32.c:836-905 | Found exactly if the folded name is one of the names the directory's slots stand for, and then with the index, entry and number of long-name slots of that name. |
| FatStore.Store.CountLfn | src/kernel/fat32.c:882-893 | The backward count of long-name slots before a live entry gives exactly the slots of that name. |
| FatDirectory.SlotBeforeGroup | src/kernel/fat32.c:882-893 | In every valid directory the slot before a live name's group never carries the long-name attribute, and every slot of the group but the last does. |
| FatStore.Store.ShortNameExists | src/kernel/fat32.c:533-564 | True exactly if an entry other than the ignored one uses the eleven bytes. |
| FatStore.Store.DirectoryIsEmpty | src/kernel/fat32.c:1221-1263 | True exactly if the directory lists nothing but its two dots. |
| FatStore.Store.FindRun | src/kernel/fat32.c:1151-1190 | Finds a run of "needed" free slots exactly if there is one in the directory; otherwise the free tail on which growth builds. |
| FatStore.Store.WriteEntrySpan | src/kernel/fat32.c:1099-1111 | Across cluster borders, exactly the slots of the span change. |
| FatStore.Store.MarkRangeDeleted | src/kernel/fat32.c:1113-1149 | Exactly the first bytes of the slots in the range become the deletion mark. |
| FatDirectory.InsertValid | src/kernel/fat32.c:1099-1209 | Writing a name's slots into free room puts exactly that name into the directory's map and keeps the directory's rules. |
| FatDirectory.DeleteValid | src/kernel/fat32.c:1113-1130 | Marking a name's slots deleted takes exactly that name out of the map and keeps the rules. |
| FatDirectory.UpdateValid | src/kernel/fat32.c:1094-1097 | Rewriting cluster and size of one entry keeps the directory and touches that name alone. |
| FatDirectory.ShrinkInPlace | src/kernel/fat32.c:1804-1812 | Overwriting a span in place and marking its rest deleted equals deleting it all and then inserting. |
| FatDirectory.ExtendValid | src/kernel/fat32.c:1191-1208 | A zeroed cluster at the end of a directory changes no name. |
| FatNames.LongNameRoundTrip | src/kernel/fat32.c:359-648 | For every valid name, the long-name slots written for it, read back in order from any reader state, decode to exactly that name, and never need more than eleven slots in all. |
| FatNames.ShortNameRoundTrip | src/kernel/fat32.c:240-469 | A name that fits 8.3 reads back from its eleven bytes as its upper-case form. |
| FatNames.LfnReader.ProcessEntry | src/kernel/fat32.c:359-411 | The reader's in-place state machine follows the step function that LongNameRoundTrip is about. |
| FatNames.ValidateLongName | src/kernel/fat32.c:270-294 | True exactly for names of 1 to 127 allowed bytes that end in neither a space nor a dot. |
| FatAliases.MakeShortName | src/kernel/fat32.c:423-469 | Succeeds exactly for names that fit 8.3, with their eleven upper-case bytes. |
| FatAliases.BuildShortAlias | src/kernel/fat32.c:471-531 | The loops over base, extension and digits produce exactly the alias for the ordinal. |
| FatAliases.AliasInjective | src/kernel/fat32.c:471-531 | Aliases of one name for different ordinals below 10^7 are different. |
| FatAliases.AliasAvailable | src/kernel/fat32.c:613-618 | By pigeonhole, if the first k aliases are all in use then k names are. |
| FatNames.FormatParts | src/kernel/fat32.c:240-263 | Any eleven bytes that are a base and an extension padded with spaces read back as base, dot and extension, the dot only if there is an extension. |
| FatFormats.LongNameExactly | src/kernel/fat32.c:359-421 | After any slots whatever, an entry has a long name if and only if they end in a complete run of pieces: the first marked as last, numbered down to 1, each with the checksum of the entry and readable characters. So an orphaned or damaged long name is never used. |
| FatFormats.EntryBytes | src/kernel/fat32.c:641-645 | A short entry byte by byte: name, attributes, high and low half of the cluster and size where the format has them, the rest zero. |
| FatFormats.EntryReads | src/kernel/fat32.c:106-109 | Cluster and size are read from those bytes in little-endian order, whatever else the entry holds. |
| FatFormats.SlotKinds | src/kernel/fat32.c:231-238 | Which written entries are listed, which are directories, and which are long-name pieces, and so never listed, by attribute bits and first byte. |
| FatFormats.LongSlotBytes | src/kernel/fat32.c:573-648 | A long-name slot byte by byte: number and mark, and thirteen 16-bit characters in stretches of five, six and two, a zero behind the last of the name and ones behind that. |
| FatFormats.ChecksumDiffers | src/kernel/fat32.c:309-318 | The checksum is the sum rotated before every byte, and any change of a single byte changes it. |
| FatFormats.ValidExactly | src/kernel/fat32.c:265-294 | The valid names, listed: 1 to 127 letters, digits and 25 other characters, the last neither space nor dot. |
| FatFormats.ShortFits | src/kernel/fat32.c:423-469 | One to eight plain characters, or these, a dot and one to three more, need no long name, and are stored in upper case padded with spaces. |
| FatFormats.ShortOnly | src/kernel/fat32.c:423-469 | Conversely, every name stored so has that form. |
| FatFormats.SlotsTold | src/kernel/fat32.c:566-648 | A name takes one slot if it has that form and its short name is not in use, and else one more than a thirteenth of its length, rounded up. |
| FatFormats.RenameSlotsTold | src/kernel/fat32.c:1796-1797 | The same for the new name of a rename, where in the same directory the old entry does not count. |
| FatFormats.AliasTold | src/kernel/fat32.c:471-531 | Every alias, told whole: the front of the base, as much as leaves room, a tilde and the ordinal, and up to three characters of the extension, in upper case and padded with spaces. |
| FatFormats.AliasSkips | src/kernel/fat32.c:471-531 | A space or a further dot anywhere in the base changes no alias. |
| FatFormats.DecimalReads | src/kernel/fat32.c:471-531 | The digits of an alias spell its ordinal, without a leading zero. |
| Bytes.FoldsAlike | src/kernel/kstring.c:73-79 | Two names fold to the same key if and only if they have the same length and every two bytes are equal or the two cases of one letter. |
| FatMakeDir.FillSpecialName | src/kernel/fat32.c:1324-1333 | The eleven bytes of "." and "..", as the reader expects them. |
| PageFrames.Allocator.AllocPages | src/kernel/memory.c:436-463 | Fails exactly when there is no run of n free pages; otherwise returns the lowest such run, and exactly its pages stop being free. |
| PageFrames.Allocator.FreePages | src/kernel/memory.c:465-471 | Given a block of which nothing is free: exactly its pages become free again, unless all 256 ranges are in use; then the block is lost and nothing changes. |
| PageFrames.Allocator.ReserveRange | src/kernel/memory.c:134-198 | Exactly the page-rounded interval leaves the free pages of a canonical array, or the array is unchanged; it refuses exactly when a split needs a 257th range; rounding is that of 64-bit words. |
| PageFrames.Allocator.AddDescriptorRange | src/kernel/memory.c:200-220 | Exactly the whole pages of the interval below 4 GiB join the free pages, given none is free already, or nothing changes. |
| PageFrames.GatherRefuses | src/kernel/memory.c:200-220 | It refuses exactly when it has a page to add and 256 ranges are in use. |
| PageFrames.Allocator.Init | src/kernel/memory.c:321-371 | For every memory map: succeeds exactly when the ranges fit the array all along and some are left; if no page is offered twice, the free pages are then exactly the whole conventional pages below 4 GiB that touch no reserved interval. |
| PageFrames.OverlapHandsOutTwice | src/kernel/memory.c:86-371 | A memory map that offers four pages twice is accepted, and two requests in a row are then given the same page. |
| PageFrames.RoomCanonical | src/kernel/memory.c:134-198 | Reserving in an array in canonical form is refused exactly when what is left takes more than 256 ranges. |
| PageFrames.OffersPlainly | src/kernel/memory.c:337-352 | A descriptor whose end fits 64 bits offers exactly its whole conventional pages below 4 GiB. |
| PageFrames.KeptExactly | src/kernel/memory.c:321-371 | Which pages are reserved, for intervals that stay inside the 64-bit word: exactly those that meet the first MiB, the kernel, the process region or the frame given. |
| PageFrames.AlignUpExact | src/kernel/memory.c:42-45 | Rounding up is right up to the last page of the 64-bit range, where it wraps to 0. |
| PageFrames.Allocator.AppendFreeRange | src/kernel/memory.c:76-132 | The in-place insertion, growth and merging computes exactly the outcome the PageRanges lemmas judge. |
| PageFrames.Allocator.CountFree | src/kernel/memory.c:496-505 | The number of free pages. |
| PageFrames.TotalCounts | src/kernel/memory.c:496-505 | For an array in canonical form this is how many page numbers it holds. |
| PageRanges.CanonicalUnique | src/kernel/memory.c:76-132 | The array is the only sorted, disjoint, non-touching one for its set of pages. |
| PageRanges.AppendAdds | src/kernel/memory.c:76-132 | Given no overlap with an earlier range, exactly the new pages join the set and the array is canonical again. |
| PageRanges.AppendRefuses | src/kernel/memory.c:76-132 | It refuses exactly when the array is full or the pages overlap a range at or behind their start. |
| PageRanges.OverlapBehindBreaks | src/kernel/memory.c:86-92 | When it accepts, the array stays canonical if and only if no earlier range reaches into the new pages: that overlap is not checked. |
| PageFrames.TakenAndFreed | src/kernel/memory.c:436-471 | Allocating a block and freeing it restores the array exactly, or loses the block when the array is full at that moment. |
| PageFrames.FreedInAnyOrder | src/kernel/memory.c:465-471 | Outstanding blocks freed in whatever order restore the very same array, whenever free ranges and blocks together number at most 256. |
| PageFrames.BackKeeps | src/kernel/memory.c:465-471 | If free ranges and blocks to be given back together number at most 256, no call of free_pages loses a block. |
| PageFrames.TakenGiven | src/kernel/memory.c:436-471 | A block taken and given back at once: the array is the same if it has a free place without the block, else exactly that block is lost. |
| PageFrames.ServedShrinks | src/kernel/memory.c:436-463 | Requests served in turn by first fit never need more ranges. |
| KernelHeap.Heap.Allocate | src/kernel/memory.c:473-489 | A live block of at least the 16-rounded size and less than a header and 16 bytes more, at the lowest free block that is large enough, disjoint from every other, with all other live blocks as they were; NULL exactly when neither the list nor the page allocator can provide it; terminates, after at most one retry unless the size computation wraps. |
| KernelHeap.Heap.Free | src/kernel/memory.c:491-494 | Exactly this block stops being live, all others stay, no byte of the heap is lost and no two touching free blocks remain. |
| KernelHeap.Heap.Grow | src/kernel/memory.c:304-319 | Succeeds exactly when the allocator has the pages; live blocks stay as they were and, unless the page count wraps, the request now fits. |
| KernelHeap.Heap.AllocFromList | src/kernel/memory.c:267-290 | First fit with a split on the linked headers computes exactly the list operation AllocatedKeeps is about. |
| KernelHeap.Heap.InsertBlock | src/kernel/memory.c:222-237 | Relinking headers inserts the block at its place by address. |
| KernelHeap.Heap.MergeAdjacent | src/kernel/memory.c:239-255 | Rewriting headers fuses exactly as the list operation of MergedKeeps does. |
| KernelHeap.Heap.FreeToList | src/kernel/memory.c:292-302 | The block's flag is set and neighbours are fused. |
| KernelHeap.AlignSizeExact | src/kernel/memory.c:52-55 | The rounded size is at least the size if and only if the sum does not leave 64 bits; for 2^64 - 1 it is 0. |
| KernelHeap.PagesForExact | src/kernel/memory.c:304-310 | The pages asked for hold header and block, and one fewer would not, if the sum does not wrap; else none is asked for, or one, and they do not hold them. |
| HeapBlocks.MergedKeeps | src/kernel/memory.c:239-255 | Merging keeps every byte covered and every live block, keeps the order, and leaves no two touching free blocks. |
| HeapBlocks.AllocatedKeeps | src/kernel/memory.c:267-290 | Allocation makes exactly one block live, at the lowest free block of at least the size, and less than a header and 16 bytes larger than asked; every other free byte stays free; order and coalescing stay. |
| HeapBlocks.FreeOrLive | src/kernel/memory.c:267-302 | Every byte of the blocks, headers included, belongs to a free block or to a live one, and none to both. |
| KernelHeap.SoundBytes | src/kernel/memory.c:304-489 | What the heap keeps: the bytes free in it are exactly those of the pages it has obtained that belong to no live block. |
| KernelHeap.SoundApart | src/kernel/memory.c:239-255 | And no free block ends where another free block starts. |
| HeapBlocks.GrowthSuffices | src/kernel/memory.c:304-489 | After growing by a block of the size and merging, first fit succeeds, so the retry never grows again. |
| Paging.Pager.MapPage4k | src/kernel/paging.c:157-193 | On success the translation of exactly one page of one space changes, to the frame and rights that the 64-bit entry stands for; on failure none, and then the page's top entry is the kernel's, or a table on its way is missing and no page is free; every new table took one page. |
| Paging.Pager.SplitLargePage | src/kernel/paging.c:111-133 | Splitting a 2 MiB page changes no translation at all; it fails only without a free page. |
| Paging.Pager.MapPage2m | src/kernel/paging.c:135-155 | Exactly the 512 pages of one chunk change their translation. Where a table hangs below the entry it is cut off, and its page is neither a table nor free any more. |
| BootMaps.CutForest | src/kernel/paging.c:135-155 | Without a last-level table that was cut off, the other trees are whole. |
| Paging.Pager.MapRange | src/kernel/paging.c:195-225 | Page after page up to the first failure: the pages of the rounded range up to there map to their frames, the physical cursor wrapping with the 64-bit word, and no other page of any space changes; a full success exactly covers the rounded range; what stopped it is a kernel's top entry over, or a missing table of, the very page it stopped at. |
| Paging.Pager.GetOrCreateTable | src/kernel/paging.c:77-100 | Gives the table below an entry, at most one new one, moving no page; for a private space it never enters a table of the kernel's. |
| PagingFacts.RangeTranslates | src/kernel/paging.c:195-225 | As the processor walks the tables: the space's translation is overlaid with the range, and a private space's range shows in no other space. |
| PagingFacts.RangeCovers | src/kernel/paging.c:211-222 | The loop over a range whose sum fits 64 bits covers it to the last byte and no page more if and only if the end rounded up fits too; otherwise it maps nothing, and the call still returns true. |
| PagingFacts.RangeWords | src/kernel/paging.c:204-209 | The overflow tests on wrapping sums accept exactly the ranges that are not empty and end below 2^64 on both sides. |
| PagingFacts.OverlaidPages | src/kernel/paging.c:40-58 | Below 2^48 page p + j goes to frame q + j, and every page outside the range is where it was. |
| Paging.Pager.Init | src/kernel/paging.c:336-360 | After success the processor's translation is exactly the boot map, and beyond the first 512 GiB the kernel has a top table exactly where the frame buffer has a page; it fails only out of memory or for an empty image section or an unmappable frame buffer, so never with more free pages than the tables there can be; every page taken, each the first free one, is one of the tables. |
| BootMaps.BootCount | src/kernel/paging.c:336-360 | At most 2054 tables, and three more for every page of a frame buffer that does not lie below 4 GiB. |
| BootMaps.ScreenAtRegion | src/kernel/paging.c:266-282 | The kernel has tables of its own for the process region exactly if the frame buffer reaches into [512 GiB, 1 TiB). |
| BootMaps.BootedMeans | src/kernel/paging.c:232-282 | The boot map page by page: frame buffer and data without execution, read-only data without writing or execution, code without writing, identity elsewhere in [4 KiB, 4 GiB), nothing at page 0. |
| BootMaps.PixelPages | src/kernel/paging.c:266-282 | The frame buffer from its pixels: if its pixels, of four bytes each, lie below 2^48, the page of every byte of every pixel is mapped to itself, writable and not executable, and every other page is as it is without a frame buffer. |
| BootMaps.PixelsFit | src/kernel/paging.c:266-282 | A frame buffer like that is never why start-up fails. |
| BootMaps.BootTranslates | src/kernel/paging.c:336-360 | The walk through the kernel's tables gives exactly the boot map. |
| Paging.Pager.CreateAddressSpace | src/kernel/paging.c:390-405 | A fresh root that translates every page as the kernel's does; fails only without a free page. |
| Paging.Pager.DestroyAddressSpace | src/kernel/paging.c:407-430 | The tables the space owns are handed to free_pages in order, the root last, and nothing else is: free ranges and lost blocks afterwards are exactly what these calls make of them. No table of another space, the kernel's shared ones included, is touched. |
| PagingFacts.SpaceTablesOnce | src/kernel/paging.c:316-430 | The list of what is handed over holds every table of the space once and nothing else. |
| PagingFacts.ChildrenFirst | src/kernel/paging.c:316-334 | In it, every table comes after each table its own entries lead to. |
| Paging.Pager.DestroyTree | src/kernel/paging.c:316-334 | The recursion calls free_pages for exactly the tables below one table, each once and children before parents; free ranges and lost blocks are exactly what these calls make of them. |
| AddressSpaces.UseSpace | src/kernel/paging.c:390-443 | For every sequence of user mappings, any of which may fail half way: at every moment the space shows exactly what was mapped so far over the kernel's view and every other table is bit for bit the same; a mapping stops only at a page whose top entry the kernel had, or one of whose tables is missing while no page is free; every new table took the first free page; at the end each of these tables, as many as were made, is handed to free_pages once and tables and places are what they were. Whenever the free ranges at the start and the space's tables together number at most 256, the array of free ranges is the very same. |
| AddressSpaces.LayeredLast | src/kernel/paging.c:432-443 | What a space shows, page by page: the last mapping that got to a page decides its frame and rights, user access always included. |
| AddressSpaces.LayeredNone | src/kernel/paging.c:432-443 | A page no mapping got to is where the kernel has it. |
| Processes.Process.PrepareAddressSpace | src/kernel/process.c:424-484 | Succeeds exactly when a root, the image and the stack are served in turn by first fit, three pages are left for tables, and the kernel has no table for the process region; then image and stack lie in frames of their own and the space shows them. Otherwise as many blocks as were taken are handed to free_pages. |
| ProcessNeeds.ImageMaps | src/kernel/process.c:447-456 | Mapping the image in a space just made succeeds exactly when the kernel has no table for the region and three pages are free: all its pages hang below the same three tables. |
| ProcessNeeds.StackMaps | src/kernel/process.c:458-467 | Once those tables are there, nothing can stop the mapping of the stack. |
| Processes.Process.ReleaseAddressSpace | src/kernel/process.c:486-513 | Image, stack and buffer, as far as held, and then the tables of the space are handed to free_pages in this order, each once and nothing else; as many blocks as were taken. |
| Processes.Process.LoadBinary | src/kernel/process.c:370-422 | Succeeds exactly when the file can be read, is accepted, and its requests for memory are met; then image, stack and loaded memory are in place. |
| Processes.Process.RunForeground | src/kernel/process.c:524-585 | The program is entered if and only if arguments and file are in order, the file is accepted, and from the pages free at the start a buffer, a root, the image and the stack are served in turn with three pages left, the kernel having no table for the process region. It is entered at the file's entry point and sees exactly its image, its stack, its arguments and the kernel's map. On every way out tables and translation root are what they were, and exactly as many blocks were handed to free_pages as alloc_pages had served, at most seven; free ranges and lost blocks are exactly what these calls make of them. With seven ranges to spare at the start the array of free ranges is the very same; if only the file buffer was taken, it is the same or the buffer is lost, the latter exactly when the array is full without the buffer. |
| Processes.MissingProgram | src/kernel/process.c:524-585 | An array of 256 ranges for which running a program that is not there loses the 32 pages of the file buffer. |
| Processes.BufferOnly | src/kernel/process.c:531-541 | Taking the file buffer and giving it back loses it if and only if the array is full without it. |
| Processes.LongRunAffords | src/kernel/process.c:424-585 | One range of free pages as long as all requests and three tables together is enough for an accepted program, if the kernel has no table for the process region. |
| Processes.ProcessSees | src/kernel/process.c:424-484 | Page by page: writable executable image, writable non-executable stack, an unmapped-by-the-process gap between them, the kernel's map elsewhere. |
| ProcessPages.LedgerEnd | src/kernel/process.c:486-513 | Once blocks and space are gone, the pages free or lost are exactly those of the beginning; with none lost the array is the same. |
| ProgramArgs.Arguments.Tokenize | src/kernel/process.c:212-261 | Succeeds exactly for a non-empty command with at most eight words in all that fit 256 bytes with their terminators; then every pointer leads to its word. |
| ProgramArgs.SpacesAre | src/kernel/kstring.c:81-84 | White space is the space, the tab and the two line ends, and nothing else. |
| ProgramArgs.NextWord | src/kernel/process.c:239-256 | White space, a word without any, and then nothing or white space: the words of the line are this word and those of the rest. |
| ProgramArgs.BlankLine | src/kernel/process.c:239-256 | A line of white space has no words. |
| ProgramArgs.WordsAreAll | src/kernel/process.c:239-256 | The words of any line, put together, are the line without its white space: no other byte is lost. |
| ProgramArgs.FitsTold | src/kernel/process.c:212-261 | What fits: a command that is not empty, at most seven words besides, and at most 256 bytes for all of them with one terminator each. |
| ProgramArgs.Arguments.Stage | src/kernel/process.c:144-179 | The copied buffer and moved pointers give the program each word again; the range check never fails. |
| ElfImage.Configure | src/kernel/process.c:263-344 | All the tests in the source's order reach exactly the verdict that AcceptedExactly and AcceptedMeans are about; those on the finished layout never fire. |
| ElfImage.AcceptedExactly | src/kernel/process.c:282-329 | A segment table is accepted if and only if every loaded segment fits file and region and stays above the kernel, and some segment starts at or below and some ends above the entry point. |
| ElfImage.AcceptedMeans | src/kernel/process.c:303-344 | An accepted image is the smallest page-aligned one that holds all loaded segments, and lies below the stack gap. |
| ElfImage.RefusedMeans | src/kernel/process.c:263-344 | Why a segment table is refused: the first loaded segment that does not fit makes it invalid if it leaves the file and too large otherwise; if all fit, one that starts below the end of the kernel makes it overlap, and all else is invalid. |
| ElfImage.HeaderReads | src/kernel/process.c:263-344 | A file that starts with an encoded header for this machine is in order exactly if its segment table lies in the file, and count and entry point are then those encoded. |
| ElfImage.SegmentReads | src/kernel/process.c:263-344 | The segment read from a table entry is the one encoded there, field by field. |
| ElfImage.SegmentMeans | src/kernel/process.c:286-306 | What the tests on a segment come to in numbers, which addresses it covers, and which byte of the file, or zero, it puts at each. |
| ElfImage.NeverOverlaps | src/kernel/process.c:316-319 | With the kernel below the process region, the overlap test never fires. |
| ElfImage.CopySegments | src/kernel/process.c:346-368 | No write leaves the image; it succeeds exactly if every segment lies in the file, and the memory is then the segments in turn over zeros. |
| ElfImage.LoadedLast | src/kernel/process.c:346-368 | Where segments overlap, the last one decides. |
| ElfImage.LoadedNone | src/kernel/process.c:346-368 | An address no segment covers holds zero. |
| Paths.Normalize | src/kernel/path.c:74-98 | Succeeds exactly when every intermediate path fits the buffer, and then leaves the normal form of the input, terminated. |
| Paths.PathBuffer.Absorb | src/kernel/path.c:42-72 | The loop over a path is the fold of its components over the stack, failing exactly when an intermediate result does not fit. |
| Paths.PathBuffer.Push | src/kernel/path.c:4-25 | One upper-case component more, or failure exactly when it does not fit. |
| Paths.PathBuffer.Pop | src/kernel/path.c:27-40 | The last component, if any, is dropped and the buffer is terminated there. |
| Paths.NormalCanonical | src/kernel/path.c:74-98 | The normal form is absolute, upper case, without empty, "." or ".." parts and without a trailing slash but for the root, and its components are the folded stack. |
| Paths.NormalIdempotent | src/kernel/path.c:74-98 | Normalising a normal form changes nothing, from any working directory. |
| Paths.DownAndUp | src/kernel/path.c:27-72 | Appending a component other than "." and "..", and then "..", to any non-empty path changes nothing. |
| Paths.OneStep | src/kernel/path.c:42-98 | From any working directory ".." leads to it without its last component, and stays at the root; a name leads to the directory with that name, in upper case, behind it. |
| Paths.StayingPut | src/kernel/path.c:58-59 | Appending "." to any non-empty path changes nothing. |
| Paths.FromWorkingDirectory | src/kernel/path.c:74-98 | A path that starts with a slash does not depend on the working directory; any other is taken behind it. |
| Paths.ComponentsAround | src/kernel/path.c:42-72 | The components of two paths with a slash between them are those of the one and then those of the other. |
| Paths.RoomExact | src/kernel/path.c:4-25 | For buffers of up to 258 bytes, what fits is told by lengths alone: every normal form on the way and its terminator. |
| Paths.StackLimitRedundant | src/kernel/path.c:4-9 | For buffers of up to 258 bytes the limit on the number of components never decides. |
| ImageLayout.ComputeLayout | tools/make_fat32_image.py:34-55 | For every total below 2^32: within its 32 rounds the loop returns the fixed point, with data sectors behind the FATs and FAT entries for all clusters, exactly when total is at least 35 and (total - 30) mod 130 is neither 1 nor 2; else which of the two errors it raises. |
| ImageLayout.FixedExactly | tools/make_fat32_image.py:34-55 | There is exactly one fixed point of the FAT-size equation, or in those two cases none. |
| ImageLayout.RefusedSizes | tools/make_fat32_image.py:271-334 | A size of m MiB is refused if and only if m mod 65 is 64, so for 64 MiB. |
| ImageLayout.Mount | src/kernel/fat32.c:1360-1426 | Which boot sectors are mounted, and with which geometry. |
| ImageLayout.MountsEvery | src/kernel/fat32.c:1360-1426 | Every boot sector of reserved sectors, FAT copies, whole clusters and a rest that is less than one, within the limits, is mounted with just these clusters. |
| ImageLayout.MountsOnly | src/kernel/fat32.c:1360-1426 | And none else is: a mounted boot sector splits up so. |
| ImageLayout.BuildThenMount | tools/make_fat32_image.py:34-258 | The kernel mounts what the builder laid out, with the same clusters at the same place, if and only if the image has at most 532510 sectors. |
| BuilderNames.ShortNameIs | tools/make_fat32_image.py:62-79 | A name the builder accepts has the eleven bytes the kernel would give it without the dots at its end. |
| BuilderNames.KeyIs | tools/make_fat32_image.py:62-79 | The kernel lists an accepted name under its own folded form if and only if it does not end in a dot. |
| BuilderNames.AcceptsPlain | tools/make_fat32_image.py:58-79 | Up to eight plain characters, alone or with a dot and up to three more, are accepted, in upper case padded with spaces. |
| BuilderTree.NeedExact | tools/make_fat32_image.py:98-133 | The clusters of a file are the fewest that hold its bytes, those of a directory the fewest, but one, that hold its entries and dots. |
| BuilderNames.TrailingDotLost | tools/make_fat32_image.py:62-79 | The example: "A." is accepted and listed as "A". |
| ImageBuilder.Allocate | tools/make_fat32_image.py:98-133 | Succeeds exactly when every name is short and unique in its folder and the clusters suffice; the clusters given out are consecutive in depth-first order from 2 on. |
| ImageBuilder.SetFatChain | tools/make_fat32_image.py:136-142 | Succeeds exactly when every cluster is in range; the chain is then a proper one and no other entry changed. |
| ImageBuilder.RegisterChains | tools/make_fat32_image.py:309-318 | All chains of the tree are proper chains of the FAT and no entry outside the stretch given out is touched. |
| ImageBuilder.WriteClusterChain | tools/make_fat32_image.py:175-189 | The chain's clusters hold the data, cut into sectors, over what they held before; refused exactly when the data is longer than the chain; nothing else changes. |
| ImageBuilder.FillDirectory | tools/make_fat32_image.py:192-218 | The payload's slots are exactly the dots, below the root, and the children's entries, in order, over zeros. |
| ImageBuilder.WriteDirectories | tools/make_fat32_image.py:192-226 | From blank clusters: the whole subtree, directories and file contents, stands on the disk, and no cluster outside its stretch is written. |
| BuilderImage.BuiltValid | tools/make_fat32_image.py:298-330 | What carries the tree is a valid kernel volume: chains disjoint, directories by the rules, dots and owners right. |
| BuilderImage.FindMeans | tools/make_fat32_image.py:192-226 | Following a path in the built volume and following it in the source tree is the same. |
| ImageSectors.BuildBootSector | tools/make_fat32_image.py:229-258 | The fields mounting reads from these 512 bytes are the ones laid out. |
| ImageSectors.BootReads | src/kernel/fat32.c:1360-1400 | The fields are read from the places the format gives them, in little-endian order, whatever else the sector holds. |
| ImageSectors.ClustersTile | src/kernel/fat32.c:189-192 | Cluster 2 starts the data, and every cluster starts where the one before ends. |
| ImageSectors.ClusterSectors | src/kernel/fat32.c:199-207 | And each holds its sectors in turn, however many they are. |
| ImageSectors.PackFat | tools/make_fat32_image.py:320-322 | Every entry of the FAT can be read back from the bytes packed. |
| ImageSectors.WriteImage | tools/make_fat32_image.py:298-332 | Boot sector, FAT and clusters stand in the image at the sectors of the layout. |
| ImageSectors.MountImage | src/kernel/fat32.c:1360-1426 | The boot sector is parsed from its bytes; the image is mounted exactly when its fields are in order, with the FAT and the clusters that the geometry places in its sectors. |
| ImageSectors.MountReads | src/kernel/fat32.c:1377-1424 | Of what the builder wrote mounting reads the same FAT and the same clusters. |
| ImageSectors.FlushFat | src/kernel/fat32.c:219-229 | Every copy of the FAT on the disk becomes the table in memory and no other sector changes; mounting again finds this table and the same clusters. |
| ImageSectors.CopiesTile | src/kernel/fat32.c:219-229 | The copies of the FAT lie one behind the other, the first behind the reserved sectors, the first cluster behind the last. |
| BuiltVolumes.Build | tools/make_fat32_image.py:271-334 | Layout, allocation, FAT and data together: an image is made exactly for buildable trees; its sectors are a boot sector the kernel accepts, and a FAT and clusters that carry the tree with nothing behind it. |
| BuiltVolumes.BuildAndMount | src/kernel/fat32.c:1360-1426 | Mounting the sectors that were built finds boot sector, FAT and clusters: a valid volume that lists exactly the source tree at every path and has no cluster in use behind it. |
| BuiltVolumes.ReadBuilt | src/kernel/fat32.c:1530-1566 | For every accepted tree and every path that names a file in it (no component ending in a dot), fat32_read_file on the built volume returns OK and exactly the file's bytes. |

## Left out

- FatWrites.WriteFile: requires old size plus data to stay below 2^32 less one cluster, because beyond that the 32-bit sums of `clusters_for_size` wrap.
- FatRuns.Run: data of one write is at most 0x7FFFEFFF bytes, which keeps the sums of `fat32_write_file` inside 32 bits for every file a mountable volume can hold; directories are to stay below 10^7 names during the run (`Roomy`), where the alias digits still tell names apart; and parents of paths have at most 127 bytes.
- FatNaming.EnterName: requires every directory to hold fewer than 10^7 - 3 names (`SmallDirectories`), for the same reason; so do WriteFile, MakeDir and Rename, which use it.
- FatAliases.BuildShortAlias: ordinals of 10^7 and more are not modelled.
- FatNaming.LookupParentAndName: requires the parent of the path to have at most 127 bytes (`ParentFits`), because `split_path` writes it into a 128-byte buffer without a check (see Findings); so do WriteFile, MakeDir, Remove, Rename and Run.
- KernelHeap.Heap.Allocate: when header and rounded size do not fit 64 bits, only the largest such request has its drain of all pages stated; for the others it states that nothing changes when NULL is returned.
- Paging.Pager.MapPage4k: the physical address is page-aligned, as its one caller passes it; links between tables are stored as given, the tables' pages being the allocator's, below 4 GiB.
- Paging.Pager.MapPage2m: its frame is stored as given, its callers passing multiples of 2 MiB below 2^48.
- PageFrames.Allocator.Init: for a memory map that offers a page twice only the resulting array is told, not which pages it stands for, because it may hold one twice (see Findings).
- BuiltVolumes.Build: for images of at most 532510 sectors, since larger ones are never mounted.
- BuiltVolumes.ReadBuilt: components that end in a dot are excluded, because the kernel refuses them (see Findings).
- BuiltVolumes.BuildAndMount: the tree is a value; `node.clusters`, which the builder sets in place, is a second tree of the same shape, and loops over children are recursions.
- I/O errors: every sector read and write succeeds; with them the error codes that only they cause.
- When the operations call `flush_fat`: their table is the one in memory, and `ImageSectors.FlushFat` tells what one call does to the disk. FAT entries behind the last cluster are not kept in memory.
- A mounted disk is an array of clusters, read from the image's sectors when it is mounted; the FSInfo sectors of the image, command-line parsing and the check of the device's sector size are not modelled.
- `fat32_stat` and `fat32_list_dir`, which only read what `FindEntry` and the scan already give; and a callback that stops a read.
- Reading the source directory in `build_tree`; names are strings of bytes, so names outside ASCII are not modelled.
- Accessed and dirty bits, TLB and control registers, model-specific registers; `paging_map_range` after boot, which is `MapRange` on the kernel's root.
- Memory contents: the bytes of the stack and of other frames; only the program's image and its arguments are followed.
- What the program does while it runs: it comes back as an arbitrary return value and exit status, and touches only its own pages.
- System calls, faults, the process state field, console messages, shell, program dispatch, the `fs.c` adapter, drivers and the boot loader.
- `memory_self_test` and `memory_dump_stats`.
- The kernel image's addresses are parameters in the order the linker script puts them, below 4 GiB.
