# nextufs: a verified model of its image editing

nextufs edits NEXTSTEP UFS images offline. The same facts are stored several times on such an
image: a fragment bitmap and five kinds of counters derived from it, a summary table, superblock
totals, block maps, link counts, directory records, ".." links. Independent pieces of code keep
them in step, and fsck, written separately, checks them. This project models that code and proves
that it does, and where it does not it says exactly when.

| module | what it models |
|---|---|
| `Geometry`, `FreeMap`, `Image` | superblock arithmetic; the bitmap of a cylinder group and the recount of every counter from it; the image as group buffers, summary table, totals, inode table and disk bytes |
| `Alloc`, `Room`, `Inodes` | the fragment allocator, how much it can still hand out, and the inode allocator |
| `Indirect`, `FileMap`, `Storage` | pointer trees on disk, the block map of an inode, whole-file storage |
| `Mutate`, `Tally` | one owner per fragment over the whole inode table; rewriting, making and dropping inodes; marked inodes and directory counts against the table |
| `Dirents`, `Dirs`, `Links`, `Tree` | directory records, directories on the image, link counts, the tree of ".." links and the ancestor walk |
| `Commands`, `Rename`, `RenameWithin`, `Runs` | the commands, rename between two directories and inside one, and runs of commands |
| `FsckClaims`, `FsckRead`, `FsckWalk`, `FsckTree`, `FsckClean` | fsck passes 1, 1b and 4 (claims and duplicates), its own reader of directories, its walk over an inode's blocks, passes 2 and 4 (descent and link counts), and all passes on an image the writer left |
| `Grow`, `Evacuate`, `Resize` | growing an image, formatting a group, fsck pass 5; moving data out of the way of the summary area; `resize grow` as a whole and what it keeps |
| `Vdi` | the copy-on-write VDI backend |
| `Witness`, `WitnessRename`, `WitnessGrow` | three concrete images: fsck finds the first clean, and what can go wrong goes wrong on them |

How to read it. `FreeMap.Recount` is the counter recomputed from scratch; `Image.CylGroup.Counted`
says every stored counter equals it, and `Image.Image.Valid` that every group is counted, the summary
mirrors the groups and the totals are the sums. `Storage.FileBytes` is what a file holds,
`Storage.Owned` the fragments it uses. `Mutate.Sound` says that no fragment is both free and
referenced or referenced twice, `Mutate.Space` is what is free or referenced, and `Mutate.Carried`
that a step loses none of it and leaves inodes as the writer leaves them. `Commands.Ready` is
`Sound` with every link count the number of directory entries naming the inode and the directories
a tree rooted at inode 2. `hide` statements in proofs only keep definitions away from the solver.

The widest results are `Runs.RunCommands` (any run of create, overwrite, append, truncate, pwrite,
mkdir, rmdir, unlink, symlink, mknod, link and rename is the same run of operations on what users
see, each answered as its state demands), `Runs.RunThenFsck` (after any such run fsck reads the
directories as they are if and only if every name in them is of bytes 1 to 127, and its passes 1, 1b,
2, 4 and 5 then find nothing to repair, but for the inode marks, free-inode counts and directory counts
of inodes that failed commands left marked: pass 5 changes something if and only if a command of the
run left one) and `Resize.ResizeGrow` (an image that grows is again one the commands rely on, with the
same files, exactly the new data fragments free and nothing lost; `Resize.GrowThenFsck` puts fsck
behind it).

Findings, each with the condition under which the code is right:

* fsck refuses directory records the program writes. Its reader takes a record in use only if its name
  is of bytes 1 to 127, and drops one it refuses together with the rest of its 1024-byte block; names
  come into a directory unchecked. It reads the records the writer reads, and alters none, if and only
  if every record is word-aligned, holds its name, ends it with a NUL when in use, and every name in use
  is of such bytes (`FsckRead.ReadIsRecords`, `FsckRead.LegibleIs`); the program keeps the first three
  itself, so from a directory in that form it comes down to the names (`Runs.RunForms`). A file whose
  names are all others goes to lost+found (`FsckClean.CheckTree`; instance `Witness.NameLost`, a file
  named with an accented letter in UTF-8).
* Removing a name merges its record into the last one in use before it, counting only the lengths
  of those two. That is right if and only if no free record lies between
  (`Dirents.MergeIsExactWhenAdjacent`); when the free records are as long as the target, the removal
  reports success and the name is still listed (`Dirents.GapKeepsTarget`, with an instance in
  `Dirents.GapExample`). The commands come to such a block themselves: remove the first two entries of
  a directory block, create a name that fits the first record, and remove the third
  (`Dirents.GapRun`). `Dirents.CanRemove` decides the condition beforehand.
* `link` raises the link count before it stores the name and does not lower it again when the name
  cannot be stored: the counts are right afterwards if and only if the directory has a record with
  room, or can grow, or the link is refused beforehand (`Commands.LinkFile`; instance
  `Witness.LinkOverCounts`).
* `mkdir` leaves its inode marked, and the group's directory count one too high, exactly when the
  group has an inode and no group a fragment for the directory (`Commands.Mkdir`; instance
  `Witness.MkdirKeepsInode`). Making a file leaves its
  inode marked exactly when the size is past the reach of three levels of indirection and not even
  the first block can be had (`Commands.CreateFile`; instance `Witness.OversizeKeepsInode`).
* A rename stops half way, with two names and one link, exactly when the old entry lies in a block
  of its directory past the direct pointers, where removal does not go; the program itself never
  grows a directory that far (`Rename.Rename`; instance `WitnessRename.RenameStopsHalfWay`).
* A rename inside one directory keeps two copies of the parent inode and writes the older one back
  last. Where the directory need not grow that is right if and only if no directory is replaced; a
  replaced one leaves the parent's link count one too high (`RenameWithin.RenameWithin`).
* fsck's pass 1 skips inline symlinks, passes 1b and 4 do not: they take the text for block addresses.
  Clearing such a symlink leaves the map right if and only if its words name no fragment a surviving
  file holds (`FsckWalk.CheckBlocks`; a text that does, `FsckWalk.SymlinkSpoils`). On images of at most
  0x01000000 fragments a text without NUL bytes or bytes above 0x7f names none (`FsckWalk.PlainIsSpared`).
* Growing the summary area moves direct data out of its way and nothing else. The image grows exactly
  when that data finds other places, no indirect root and no fragment found through an indirect block
  lies in the way, and the area ends inside what group 0 will hold (`Resize.ResizeGrow`). If the data
  found other places and the rest is not so, the growth is refused too late: the old last group has its
  new fragments, and the superblock's totals are no longer the sum of the summary table, unless that
  group gained nothing (`Grow.TailAtOdds`; instance `WitnessGrow.GrowsHalfWay`).
* The two block resolvers agree except where a block is out of reach or its tree has no root: the
  deallocator sees a hole there, the reader an error (`FileMap.ResolveFileBlockFrag`).
* A write to a VDI block that its parent would have to fill, and that extends past the parent's end,
  fails; with packed slots and inside the disk nothing else does (`Vdi.Backend.Write`; instance
  `Witness.WriteAtShortParent`).

## Model
| member | source | states |
|---|---|---|
| FreeMap.RecountChange | src/core/alloc.c:176-212 | changing the bits of one aligned block changes every recounted counter by that block's share and by nothing else |
| FreeMap.CountersCoverMap | src/fsck/pass5.c:108-142 | whole blocks times block length plus loose fragments is the number of free fragments |
| FreeMap.CountFreeRuns | src/core/alloc.c:176-196 | the one-pass scan counts the maximal free runs of each length |
| FreeMap.RunsOfTail | src/core/alloc.c:338-349 | taking the front of a free block leaves exactly one run, of the rest |
| Image.SumOfUpdate | src/core/layout.c:252-297 | moving one summary entry moves the sum by the same amount |
| Image.Image.UpdateSummaryCounts | src/core/layout.c:252-297 | one summary entry and the superblock totals move together, and the totals stay the sum of the table |
| Image.CountedAfter | src/core/alloc.c:198-212 | counters that move by one block's share stay equal to the recount |
| Image.FreeSetFill | src/core/alloc.c:154-174 | rewriting a run of one group's map changes the set of free fragments by exactly that run |
| Alloc.TakePartial | src/core/alloc.c:250-300 | a run leaves a partly used block and every counter follows |
| Alloc.TakeWhole | src/core/alloc.c:302-353 | a whole block is split: its whole-block counters go down, the rest is counted as one loose run |
| Alloc.ReturnRun | src/core/alloc.c:442-529 | a used run becomes free, a completed block is reclassified, and a run that is partly free already is refused |
| Alloc.FindPartial | src/core/alloc.c:250-300 | finds the lowest fitting run of a partly used block if there is one, with counters deciding when not to look |
| Alloc.FindWhole | src/core/alloc.c:302-353 | finds the lowest whole free block if there is one |
| Alloc.AllocateFragsInGroup | src/core/alloc.c:214-353 | NoSpace exactly when no aligned block has a fitting free run; otherwise first fit, and no whole block is split while a partly used one fits |
| Alloc.AllocateFragsAnyCg | src/core/alloc.c:355-371 | NoSpace exactly when no group has a fit; otherwise a placed run leaves the free set and every counter, summary and total stays exact |
| Alloc.RotationReaches | src/core/alloc.c:355-371 | the round-robin order from any preferred group visits every group |
| Alloc.ExtendFragmentRun | src/core/alloc.c:381-440 | grows in place exactly when the following fragments are free and in the same block |
| Alloc.FreeFragmentRun | src/core/alloc.c:442-529 | gives back exactly the run, refuses a run that is not wholly in use, keeps every counter exact |
| Alloc.ReallocateFragmentRun | src/core/alloc.c:531-568 | the new run starts with the old bytes, the old run is free, and it fails exactly when no group fits |
| Room.NoneFits | src/core/alloc.c:214-371 | no group has a fit exactly when there is no whole free block and no partly used block with a fitting run |
| Room.WholesIsTotal | src/core/layout.c:252-297 | the whole free blocks of all groups are the number the superblock holds |
| Inodes.AllocateInodeInGroup | src/core/alloc.c:22-89 | takes the first clear bit round from the rotor, fails exactly when none is clear, keeps the free count |
| Inodes.FreeInodeInGroup | src/core/alloc.c:91-139 | clears a set bit and refuses a clear one |
| Indirect.TreeFrame | src/core/alloc.c:720-750 | a write that avoids a pointer tree's blocks leaves the tree as it was |
| Indirect.WriteIndirectEntry | src/core/alloc.c:590-604 | one pointer of one block changes |
| Indirect.AllocateZeroedFullBlock | src/core/alloc.c:606-631 | a fresh block of zero pointers out of the free set; fails exactly when no whole block is free |
| Indirect.SetIndirectDataBlock | src/core/alloc.c:639-678 | on success the tree maps the index to the fragment and every other index as before; on failure it maps as before; the blocks it adds are the missing ones on the path, and it succeeds exactly when that many whole blocks are free |
| Indirect.MissingIsFresh | src/core/alloc.c:639-678 | in a tree filled from the front, the blocks missing on the path of the next index are the ones whose first index it is |
| Indirect.ResolveIndirectDataBlock | src/core/alloc.c:720-750 | the deallocator's walk finds what the tree holds |
| Indirect.ResolveIndirectBlockFrag | src/core/image.c:715-745 | the reader's walk finds the same, and refuses a missing root |
| Indirect.FreeIndirectMetadataTree | src/core/alloc.c:779-805 | gives back exactly the tree's own blocks |
| FileMap.SpotInjective | src/core/alloc.c:680-718 | different logical blocks have different places in the block map |
| FileMap.SetInodeDataBlock | src/core/alloc.c:680-718 | one logical block is remapped and no other; fails as too big exactly past triple indirection; counts the fragments it added |
| FileMap.SnugCost | src/core/alloc.c:680-718 | for a file laid out from the front, what mapping its next block costs depends on the block number alone |
| FileMap.ResolveInodeDataBlock | src/core/alloc.c:752-777 | the deallocator's resolver agrees with the block map |
| FileMap.ResolveFileBlockFrag | src/core/image.c:747-772 | the reader's resolver agrees with the same map exactly where the block is in reach and its tree has a root |
| Storage.AllocateDataForInode | src/core/alloc.c:807-870 | the answer is a function of the size and of what is free; success: the file holds exactly the data, without holes, owns exactly what left the free set, counts it in its block count; failure: nothing stays allocated and the abandoned size is known; only free fragments are written |
| Storage.EnoughWholes | src/core/alloc.c:807-870 | a file in reach is stored whenever as many whole blocks are free as it has data and indirect blocks |
| Storage.FreeFileStorage | src/core/alloc.c:872-926 | gives back exactly the fragments the file owns |
| Storage.InodeReadData | src/core/image.c:774-823 | returns exactly the requested slice of the file, and fails exactly when a touched block cannot be resolved |
| Storage.StoreThenRead | src/core/alloc.c:807-870 | what was stored is what a read returns, at every offset and length |
| Storage.StoreThenFree | src/core/alloc.c:872-926 | storing and freeing, or failing to store, restores every bitmap and counter of every group |
| Storage.FreeSetDetermines | src/fsck/pass5.c:108-142 | the free set and the inode side determine every bitmap and counter |
| Mutate.Replaced | src/mutate/mutate.c:226-251 | giving one inode storage from the free set or its own keeps one owner per fragment and every other file's bytes |
| Mutate.ReplacedCarries | src/mutate/mutate.c:226-251 | a step that gives one inode storage from the free set or its own loses no fragment and leaves the others as they were |
| Mutate.RewriteInodeContents | src/mutate/mutate.c:226-251 | answers as storing the new bytes does; the file gets them and no other file changes, or the stored file reads as before |
| Mutate.EditFile | src/mutate/mutate.c:623-1029 | overwrite, append, truncate and pwrite are the byte-string operations, zero-filling gaps, all or nothing; the answer in every case |
| Tally.TalliedOne | src/core/alloc.c:22-139 | marking an inode as it comes into use, or clearing it as it goes, leaves stray marks and the excess of every directory count as they were |
| Tally.LeftMarked | src/mutate/mutate.c:578-580 | a mark without an inode is one stray more, and one directory too many if it was to be one |
| Mutate.NewContents | src/mutate/mutate.c:652-662 | the buffer built before the rewrite is the edited byte string at every position |
| Mutate.RemoveLinkedInode | src/mutate/mutate.c:171-199 | one link less; the last one frees exactly the owned storage and the inode; special nodes free nothing |
| Mutate.RemoveDirInode | src/mutate/mutate.c:201-224 | the directory and its storage go and the parent loses one link |
| Mutate.DiscardNewInode | src/mutate/mutate.c:304-323 | a new inode is undone; it stays marked exactly when its size was out of reach |
| Mutate.NewFile | src/mutate/mutate.c:361-384 | a new inode holds the data; on failure free set and files are as before, and the inode map too unless the size is out of reach and no block can be had; the answer in every case |
| Mutate.StoreInline | src/mutate/dir_mutate.c:436-457 | a short symlink's text survives the trip through the pointer fields |
| Dirents.TiledConcat | src/core/directory.c:22-41 | records of tiled buffers concatenate |
| Dirents.InsertInBlock | src/mutate/dir_mutate.c:126-189 | takes an entry exactly when some record has room, the first such record and as the code splits it; keeps the tiling of every directory block and its records in good form, lists one entry more |
| Dirents.RemoveInDirblk | src/mutate/dir_mutate.c:236-287 | what removing the first match leaves in its block, in every case |
| Dirents.RemoveInBlock | src/mutate/dir_mutate.c:206-295 | finds the first entry with the name; removes exactly it and keeps the tiling and the form of the records if it is removable |
| Dirents.CleanRemoval | src/mutate/dir_mutate.c:265-287 | without a free record in between, the listing loses exactly the first match |
| Dirents.MergeIsExactWhenAdjacent | src/mutate/dir_mutate.c:265-287 | the merge is exact if and only if no free record lies between the two records |
| Dirents.GapKeepsTarget | src/mutate/dir_mutate.c:265-287 | when the free records in between are as long as the target, the name stays listed |
| Dirents.GapExample | src/mutate/dir_mutate.c:265-287 | such a block exists |
| Dirents.GapRun | src/mutate/dir_mutate.c:105-295 | two removals, an insertion and a removal, all successful, after which the block lists the removed name as before |
| Dirents.GapStart | src/mutate/dir_mutate.c:105-295 | a block that run can start from |
| Dirents.CanRemove | src/mutate/dir_mutate.c:206-295 | decides beforehand whether a removal will keep the directory tiled |
| Dirents.RemovedKeeps | src/mutate/dir_mutate.c:236-287 | a clean removal leaves the directory beginning with the dots it began with |
| Dirents.SecondRenumbered | src/mutate/dir_mutate.c:401-434 | writing four bytes at the second record renames it and nothing else |
| Dirs.DirDense | src/mutate/dir_mutate.c:105-204 | a directory that lists has no holes |
| Dirs.WriteDirBlock | src/mutate/dir_mutate.c:173-189 | rewriting bytes of a directory block changes those bytes of the directory and no other file |
| Dirs.GrowDirectory | src/mutate/dir_mutate.c:41-103 | one more directory block: in place, by extension, or by moving the run, whose bytes come along; fails exactly when none of these can be had |
| Dirs.InsertInNewBlock | src/mutate/dir_mutate.c:190-203 | the directory's bytes are the old ones followed by a block with the entry |
| Dirs.InsertDirent | src/mutate/dir_mutate.c:105-204 | lists exactly one entry more and begins as it did, grown or moved or not; refused exactly when no direct block has room and no block can be added |
| Dirs.FullAtLimit | src/mutate/dir_mutate.c:41-103 | while a whole block is free only a directory at its limit of direct blocks is full |
| Dirs.RemoveDirent | src/mutate/dir_mutate.c:206-295 | outcome and removed inode in every case; if the entry is removable the listing loses exactly the first match, the directory begins as it did, and room for the name is left; no other file changes |
| Dirs.DirectoryIterate | src/core/directory.c:7-51 | the callback sees exactly the listing |
| Dirs.FindName | src/core/directory.c:103-119 | the inode of the first entry with the name |
| Dirs.DirectoryIsEmpty | src/mutate/dir_mutate.c:315-375 | true exactly when the only entries are "." and "..", both right and both there |
| Links.CreatedKeepsLinks | src/mutate/mutate.c:325-407 | a new inode with one name keeps every link count equal to the number of names |
| Links.UnlinkedKeepsLinks | src/mutate/mutate.c:459-523 | removing a name keeps every link count right |
| Links.DirMadeKeepsLinks | src/mutate/mutate.c:525-621 | a new directory, its two dots and the parent's extra link keep every count right |
| Links.DirRemovedKeepsLinks | src/mutate/mutate.c:699-758 | removing an empty directory keeps every count right |
| Commands.CreateFile | src/mutate/mutate.c:325-407 | file and name appear together or nothing changes but, in one case, the inode mark; the answer in every case, exact for an empty file and otherwise where the directory has room in a direct block, is at its limit, or a block is to spare |
| Commands.MakeSymlink | src/mutate/mutate.c:824-910 | symlink and name appear together, its text readable, or nothing changes; answer and inode marks in every case, the answer exact for an inline text and otherwise as for a file |
| Commands.MakeNode | src/mutate/mutate.c:1031-1114 | node and name appear together or nothing changes; a device number owns no fragment; the exact answer in every case |
| Commands.Mkdir | src/mutate/mutate.c:525-621 | directory, dots, name and parent link appear together or nothing does; inode map and directory counts are as before after a failure except exactly when an inode was to be had and no fragment |
| Commands.Unlink | src/mutate/mutate.c:459-523 | the answer in every case; whatever the entry, only its directory and its inode change; if it is removable the name goes and one link with it, storage with the last |
| Commands.Rmdir | src/mutate/mutate.c:699-758 | the answer in every case; whatever the entry, only its directory and its inode change; if it is removable the empty directory goes with its storage and its parent's link |
| Commands.LinkFile | src/mutate/mutate.c:760-822 | the answer in every case, dot names refused first, no space exactly when the directory is full; link counts are right afterwards if and only if it is another |
| Commands.OverCounted | src/mutate/mutate.c:803-813 | a raised count without a name is wrong |
| Runs.RunCommands | src/mutate/mutate.c:325-1259 | over any run of commands no fragment is free and referenced, has two owners or is lost, all counters are exact, link counts right, directories a tree; every command returns what its state demands, and does exactly its operation on kinds, counts, bytes and names if it succeeds and nothing if it fails |
| Runs.RunCommand | src/mutate/mutate.c:325-1259 | one command: its answer, its operation if it succeeds, nothing if it fails, but for a hard link that finds no room |
| Runs.RunLedger | src/fsck/pass5.c:75-160 | over a run the stray marks grow by the commands that left one, and each group's excess of directories by the failed mkdirs among them |
| Runs.RunAccounts | src/fsck/pass5.c:75-160 | from an image with every mark and directory accounted for, a run ends so if and only if no command left an inode marked |
| Runs.RunTexts | src/mutate/mutate.c:824-910 | a run brings no inline text but those of its own symlink commands |
| Runs.StepForms | src/mutate/dir_mutate.c:105-295 | a command keeps every record word-aligned, holding its name and terminated, and brings no name into a directory but its own |
| Runs.RunForms | src/mutate/dir_mutate.c:105-295 | so does a run, and the names it leaves are of bytes 1 to 127 if those it started with and its commands' are |
| Runs.RunThenCheck | src/fsck/pass1.c:42-271 | after any run the block passes of fsck cut off and mark no inode, find every block count right and every unused inode clear, and build the map of what the inodes own if and only if no cleared inline symlink's words name a fragment in use, which on a small image with plain texts none does |
| Runs.RunThenFsck | src/fsck/session.c:55-78 | after any run that no hard link has spoilt, fsck reads the directories as they are if and only if they are orderly, which from directories in good form means that every name listed is of bytes 1 to 127; then passes 1, 1b, 2, 4 and 5 find nothing to repair in blocks, links, directories and fragment maps, and inode maps, group counters, summary table and totals stay as stored if and only if no command left an inode marked; otherwise a file without a readable name goes to lost+found |
| Tree.ReadDirectoryParentInode | src/mutate/dir_mutate.c:377-399 | the parent named by the first two records |
| Tree.DirectoryHasAncestor | src/mutate/mutate.c:253-274 | on acyclic ".." links the walk ends and answers exactly whether the inode lies above |
| Tree.MoveKeepsTree | src/mutate/mutate.c:1179-1184 | moving a directory below one it is not above keeps the links a tree rooted at inode 2 |
| Tree.MoveBelowItself | src/mutate/mutate.c:1179-1184 | moving it below one it is above, itself included, leaves no tree |
| Tree.UpdateDirectoryParentInode | src/mutate/dir_mutate.c:401-434 | the second record names the new parent, every other record and file stays |
| Tree.DirMadeKeepsTree | src/mutate/mutate.c:525-621 | a new directory hangs in the tree by its name and its ".." |
| Tree.DirRemovedKeepsTree | src/mutate/mutate.c:699-758 | taking an empty directory away leaves a tree |
| Tree.RenamedDirKeepsTree | src/mutate/mutate.c:1179-1249 | a directory renamed into one it is not above: new name, no old name, new "..", and still a tree in which every directory has one name, in its parent |
| Tree.RenamedKeepsLinks | src/mutate/mutate.c:1228-1249 | after a rename, with the two parents' counts adjusted for a directory, every link count is right |
| Rename.Rename | src/mutate/mutate.c:1116-1259 | the answer in every case; it does nothing, or clears the new name and moves the old one there, keeping links right and directories a tree; half done exactly when the old entry cannot be removed |
| Rename.MakeWay | src/mutate/mutate.c:1193-1226 | the old bearer of the new name goes as unlink or rmdir would have it, and leaves room for the name |
| RenameWithin.RenameWithin | src/mutate/mutate.c:1116-1259 | inside one directory that need not grow: the answer in every case; it does nothing, or clears the new name, stores it and removes the old entry; with that entry removable the links are right afterwards if and only if no directory was replaced |
| RenameWithin.WrittenBack | src/mutate/mutate.c:1231-1249 | the older copy of the directory's inode, written over the moved name, leaves links and tree right exactly when its link count is the current one |
| Rename.NamedTwice | src/mutate/mutate.c:1228-1234 | with both names in place the link count is wrong |
| FsckClaims.MarkReserved | src/fsck/pass1.c:31-40 | the bits set first are exactly the reserved areas |
| FsckClaims.InRangeParts | src/fsck/inode_scan.c:116-146 | every fragment of a run in range is in range |
| FsckClaims.InsertDup | src/fsck/pass1.c:246-263 | where the new node goes and when muldup moves |
| FsckClaims.Checker.Claim | src/fsck/pass1.c:231-264 | bit plus list occurrences is the number of outstanding claims, and the list up to muldup holds each duplicated fragment once |
| FsckClaims.Checker.Pass1Check | src/fsck/pass1.c:206-271 | the inode is marked exactly for a bad run or a fragment claimed before, unless cut off, and cut off only in the middle of such runs |
| FsckClaims.Checker.Pass1 | src/fsck/pass1.c:42-204 | all claims are outstanding and marks exact for what came before, unless an inode was cut off, which only faulty inodes are |
| FsckClaims.SwapFound | src/fsck/pass1b.c:54-66 | a node with the value trades places with the one at duphead, at most once |
| FsckClaims.Checker.Pass1b | src/fsck/pass1b.c:17-71 | the first claimant of every duplicated fragment is marked, early stop included, and nobody without a duplicated fragment |
| FsckClaims.Checker.FindDuplicates | src/fsck/pass1b.c:17-71 | with a walk of its own for each pass: if pass 1b's walks are pass 1's, or nothing was claimed twice, an inode is marked afterwards if and only if it names a fragment it cannot have or shares one with a reserved area, another inode or itself |
| FsckClaims.MarksExact | src/fsck/pass1b.c:17-71 | pass 1's marks and pass 1b's together are the inodes with a fragment claimed twice |
| FsckClaims.SharedMeans | src/fsck/pass1.c:206-271 | claimed more than once means shared |
| FsckClaims.Checker.Unclaim | src/fsck/pass4.c:67-94 | giving up a fragment takes it off the list, or the last claim on it off the map, whether or not the giver had claimed it |
| FsckClaims.Checker.Pass4 | src/fsck/pass4.c:15-94 | bad inodes, directories never found, inodes without links and inodes lost+found cannot take give up what a second walk of them names; what is still outstanding afterwards is the old claims less those, and a bit is set exactly when a reserved area or a surviving inode claims the fragment if each gives up its own |
| FsckClaims.SurvivorsExclusive | src/fsck/pass4.c:51-54 | with the marked inodes gone, every fragment has one claimant and none is in a reserved area |
| FsckRead.DirCheck | src/fsck/dir_scan.c:161-187 | whether fsck takes the record at a position |
| FsckRead.PassesIs | src/fsck/dir_scan.c:161-187 | it takes one of the writer's records exactly when it is word-aligned, holds its name and, in use, ends it with a NUL and has it in bytes 1 to 127 |
| FsckRead.ReadIsRecords | src/fsck/dir_scan.c:107-187 | what fsck reads of a directory is what the writer reads if and only if it takes every record |
| FsckRead.LegibleIs | src/fsck/dir_scan.c:161-187 | and that is so if and only if all records are in good form and every name listed is of bytes 1 to 127 |
| FsckRead.ReadGenuine | src/fsck/dir_scan.c:107-158 | whatever it drops, a record in use that it reads is one the writer lists, under a name of such bytes |
| FsckRead.DotsPass | src/fsck/dir_scan.c:107-158 | the dots of a directory in good form are read, whatever follows them |
| FsckRead.DirReader.Next | src/fsck/dir_scan.c:107-158 | one call hands on the next record of what is to be read, the lengths of refused ones added to it, and alters the block exactly when something is refused |
| FsckRead.ReadDirectory | src/fsck/dir_scan.c:71-105 | the scan hands on exactly what is to be read and alters nothing if and only if every record is taken |
| FsckWalk.IBlock | src/fsck/inode_scan.c:62-114 | the runs visited below an indirect block, in order, and whether it has pointers past the end |
| FsckWalk.CkInode | src/fsck/inode_scan.c:16-60 | the runs visited for an inode: direct blocks with the rounded-up tail, then each tree |
| FsckWalk.TreeCovers | src/fsck/inode_scan.c:62-114 | on a tree filled from the front the walk, its products wrapped to 32 bits, visits each data and indirect fragment exactly once and finds nothing past the end |
| FsckWalk.WalkOfFile | src/fsck/pass1.c:164-183 | for a file the writer stored the walk visits exactly the fragments the file owns, each once, and their number is the one the writer stored |
| FsckWalk.SizesFit | src/fsck/inode_scan.c:90-94 | the bytes below one pointer of a used tree are fewer than the file's, so for files under 2 GiB every divisor of the walk fits 32 bits |
| FsckWalk.LastProductWraps | src/fsck/inode_scan.c:62-114 | the products need not: with 8192-byte blocks the last one of a file of 2 GiB less a byte wraps |
| FsckWalk.KeptIsPlausible | src/fsck/pass1.c:133-147 | pass 1 has nothing against the pointers of an inode the writer left |
| FsckWalk.ScanInodes | src/fsck/pass1.c:46-198 | state, walk and block count of every inode of the table, and whether an unused one is not clear |
| FsckWalk.SeenAsOwned | src/fsck/pass1.c:42-271 | what pass 1 claims for a writer's inode is what it owns, each fragment once, none reserved |
| FsckWalk.CheckBlocks | src/fsck/pass1.c:42-271 | passes 1, 1b and 4 on a writer's image, inline symlinks walked by the latter two: nothing cut off, marked or miscounted and no unused inode with something left in it; the map ends as the reserved areas and what the inodes that stay own if and only if no cleared inline symlink's words name a fragment in use |
| FsckWalk.MapExact | src/fsck/pass4.c:15-94 | the map is exact if and only if nothing given up is still held |
| FsckWalk.PlainIsSpared | src/fsck/inode_ops.c:35-55 | on a small image an inline symlink with a plain text gives up nothing |
| FsckWalk.SymlinkNamesFragment | src/fsck/inode_ops.c:35-55 | an inline symlink whose text is not plain can name a fragment |
| FsckWalk.SymlinkSpoils | src/fsck/pass4.c:67-94 | clearing that symlink spoils the map when an inode that stays owns the fragment |
| FsckTree.Descent.Descend | src/fsck/dir_scan.c:17-69 | ends on any graph, each call entering one directory fewer, and settles every record of what it enters |
| FsckTree.Descent.Pass2Check | src/fsck/pass2.c:81-263 | one record is kept, repaired or cleared, and its link counted if kept |
| FsckTree.Descent.Pass2 | src/fsck/pass2.c:16-79 | found are exactly the reachable directories with contents; each but the root keeps one record naming it, in the directory its ".." names, entered before it; counts are down by the kept records; nothing kept is dangling |
| FsckTree.ReachedEntered | src/fsck/pass2.c:236-245 | nothing reachable is left unentered |
| FsckTree.FoundHangs | src/fsck/pass2.c:202-262 | every directory found hangs in the tree |
| FsckTree.Pass4Links | src/fsck/pass4.c:28-46 | each inode's fate and link count, with the list of unlinked inodes shrinking by head swaps |
| FsckTree.CheckLinks | src/fsck/dir_repair.c:15-42 | after passes 2 and 4 an inode with kept records has exactly that many links; one without goes to lost+found or is cleared |
| FsckClean.ReadUnaltered | src/fsck/dir_scan.c:71-187 | fsck alters no directory, and reads the records the writer reads, if and only if all are in good form with names of bytes 1 to 127 |
| FsckClean.DirReached | src/fsck/pass2.c:236-245 | on a writer's image every directory is reached from the root |
| FsckClean.NothingChanged | src/fsck/pass2.c:81-263 | given the writer's records pass 2 keeps every one as it is |
| FsckClean.CountedDown | src/fsck/pass2.c:202-262 | and counts every link count down to zero |
| FsckClean.CheckTree | src/fsck/pass4.c:15-65 | passes 2 and 4 on what fsck's reader makes of the directories: if they are orderly they find every one, change no record and leave every inode with the links it has; if not, the records read are others, a kept inode has the links left, and a file without a readable name goes to lost+found |
| FsckClean.UsedIsNotFree | src/fsck/pass5.c:108-142 | the map the passes end with is the complement of the free fragments |
| FsckClean.MapsAgree | src/fsck/pass5.c:75-107 | pass 5 finds the inode maps as they are exactly when no inode is marked that nobody uses |
| FsckClean.FreeInodesAgree | src/fsck/pass5.c:147-160 | its free-inode counts are the stored ones exactly then |
| FsckClean.CountersAgree | src/fsck/pass5.c:147-160 | group counters, summary table and totals are the stored ones if and only if moreover no directory count is too high |
| FsckClean.DirsCounted | src/fsck/pass5.c:75-107 | the directories pass 5 counts in a group are those of the inode table |
| FsckClean.Fsck | src/fsck/session.c:55-78 | all passes on a writer's image with no fragment lost: the directories are read as they are if and only if they are orderly; then there is nothing to repair, pass 5's fragment maps and counters are the stored ones, its inode maps if and only if no inode is marked that nobody uses, and all group counters, summary entries and totals if and only if no directory count is too high either |
| Grow.CountsDetermined | src/fsck/pass5.c:108-142 | two counted groups with the same map have the same counters |
| Grow.AddFreeRange | src/commands/resize.c:231-287 | the range becomes free with every counter exact; refused exactly when it is not a range of used fragments |
| Grow.RangeConserves | src/commands/resize.c:231-287 | block length times the whole-block gain plus the loose gain is the number of fragments |
| Grow.TwoSteps | src/commands/resize.c:231-287 | extending in two steps gives the same group as in one |
| Grow.ClearPart | src/commands/resize.c:346-398 | part of a block goes out of use and the counters follow |
| Grow.ReserveSummaryExtension | src/commands/resize.c:308-420 | group 0 stays valid under the longer summary area and loses exactly its fragments; refused exactly when one is in use |
| Grow.ExpandOldLastCg | src/commands/resize.c:633-689 | the old last group is valid at its new size and gains exactly the new fragments |
| Grow.BuildNewCg | src/commands/resize.c:583-631 | a new group with exactly its data fragments free, counted and conserved |
| Grow.InitCg | src/mkimg_format/format_fsinit.c:21-123 | the formatter's group: exactly the data fragments free whatever the buffer held before, every counter exact, and the data size it adds is their number |
| Grow.BuiltIsFormatted | src/mkimg_format/format_fsinit.c:63-116 | for groups above 0 the resizer and the formatter build the same group and count the same data fragments for it |
| Grow.GrowImage | src/commands/resize.c:924-1061 | the answer in every case; every group, summary entry and total of the grown image is exact, each bit of an old group is the old one but for the last group's gain and the summary area's, new groups have their data fragments free and no inode in use, and the weighted gain of the free totals is the change of the data-fragment count; a summary range in use leaves the old last group and its summary entry grown and the totals short by just that |
| Grow.TailAtOdds | src/commands/resize.c:924-1061 | then the totals are not the sum of the summary table, unless the last group gained nothing |
| Evacuate.TableMoved | src/commands/resize.c:445-505 | a data run moved to free fragments: every file keeps its bytes, every fragment its one owner, none is lost |
| Evacuate.MoveDirectRun | src/commands/resize.c:445-505 | one direct run moves exactly when it overlaps the range, to a run outside it; otherwise, or without such a run, everything stays |
| Evacuate.EvacuateSummaryRange | src/commands/resize.c:507-564 | however the pass ends every file keeps its bytes and every fragment its owner; when it ends well no live inode has direct data or an indirect root in the range, and it moved nothing exactly when none had direct data there before |
| Evacuate.DeepMoved | src/commands/resize.c:445-505 | moving a direct run changes nothing that is found through an indirect block, of any file |
| Evacuate.EvacuatedIsClear | src/commands/resize.c:507-564 | after the pass the range is free if and only if it ends inside what group 0 will hold and no fragment found through an indirect block lies in it |
| Evacuate.PlainTextsClear | src/commands/resize.c:507-564 | inline texts of plain characters and device numbers never look like data in the range |
| Resize.FileSame | src/commands/resize.c:924-1061 | a file whose fragments the summary area does not take has the same blocks, bytes and block count in the larger image |
| Resize.FreeSetGrown | src/commands/resize.c:924-1061 | growing adds to the free fragments exactly the data fragments that were not there and takes exactly those of the longer summary area |
| Resize.GrownSound | src/commands/resize.c:924-1061 | every file keeps its bytes and every fragment its one owner, and the new inodes are unused |
| Resize.GrownWhole | src/commands/resize.c:924-1061 | no fragment is lost by growing |
| Resize.GrownTidy | src/commands/resize.c:924-1061 | link counts stay right and the directories a tree |
| Resize.GrownTally | src/commands/resize.c:924-1061 | no inode mark and no counted directory comes or goes |
| Resize.ResizeGrow | src/commands/resize.c:810-1061 | checks, evacuation until nothing moves, growth. Refused or not, every file keeps its bytes. It grows if and only if the way could be cleared, group 0 will hold the longer summary area, and no fragment found through an indirect block of the old image is in it; then the image is as the commands and fsck want it if it was before; if only the first is so, the old last group has grown and the totals have not |
| Resize.GrowThenFsck | src/fsck/session.c:55-78 | an image that has grown gives fsck as little to do as it would have before: what it reads, and whether it changes a mark or a counter, depends on the old image alone |
| Grow.CountBlock | src/fsck/pass5.c:108-128 | the recount of one block |
| Grow.Pass5 | src/fsck/pass5.c:46-166 | fsck's recount of every group equals the recount that gives the counters their meaning, inode map, free inodes, directories and totals included |
| Grow.RecountAgrees | src/fsck/pass5.c:147-160 | on a valid group the recount finds nothing to correct |
| Vdi.GrantedGuest | src/core/image.c:339-404 | giving a block a slot with its present bytes changes no guest byte |
| Vdi.SlotWritten | src/core/image.c:406-448 | bytes written into a slot appear at their guest offset and nowhere else |
| Vdi.Backend.Read | src/core/image.c:260-325 | a read returns the slice of the flat disk, through any chain of parents, zero past a parent's end |
| Vdi.Backend.Materialize | src/core/image.c:339-404 | no guest byte changes; fails exactly without a slot or without the parent's full block |
| Vdi.Backend.Write | src/core/image.c:406-448 | the disk reads as before with the bytes spliced in, or a prefix of them on failure; with packed slots it never runs out and fails exactly past the end or at a short parent |
| Vdi.PackedRoom | src/core/image.c:353-354 | with the slots below the count used once each, a block without a slot means one is left |
| Vdi.GrantedStored | src/core/image.c:386-402 | the map and count in the file stay in step with memory |
| Vdi.Open | src/core/image.c:620-645 | the map is read entry by entry and the count with it; refused exactly when the file ends before the map does |
| Vdi.Reopened | src/core/image.c:620-645 | opening the file again finds the same disk |
| Witness.LinkOverCounts | src/mutate/mutate.c:803-813 | on an image with no fragment free and a full root, a link fails and its count stays one too high |
| Witness.MkdirKeepsInode | src/mutate/mutate.c:578-580 | on that image mkdir fails, an inode stays marked and a directory is counted that is not there |
| Witness.OversizeKeepsInode | src/mutate/mutate.c:304-323 | on that image a file past the reach of the pointers fails and its inode stays marked |
| Witness.WriteAtShortParent | src/core/image.c:359-365 | a one-block disk over a one-byte parent refuses a write it has room for |
| Witness.TinyIsClean | src/fsck/session.c:55-78 | fsck finds that image clean, counters, summary table and totals included |
| Witness.NameLost | src/fsck/dir_scan.c:107-187 | on that image a file is made under a name of two bytes above 0x7f; fsck does not read the directory as it is and the file goes to lost+found |
| WitnessGrow.GrowsHalfWay | src/commands/resize.c:924-1061 | on a sound image whose fragment behind the summary area is found through an indirect block a growth is refused, every file is as it was, and the totals are no longer the sum of the summary table |
| WitnessRename.RenameStopsHalfWay | src/mutate/mutate.c:1228-1234 | on a concrete image with a directory past its direct blocks a rename fails and leaves both names on one link |

## Left out
- Rename.Rename: takes two different directories (`RenameWithin.RenameWithin` takes one), and asks for a removable old bearer of the new name.
- RenameWithin.RenameWithin: asks that the directory need not grow for the new name; when it grows, the older copy of its inode, written back last, has the old size and pointers (src/mutate/mutate.c:1228-1234), and what that leaves is not stated. Equal path strings, which the code answers before it opens the image, are not compared.
- Runs.RunCommands: stops before a removal that a free record would spoil, before a rename out of a directory with blocks past the direct pointers, and after a hard link without room, because the code goes wrong there; renames are between two directories.
- Commands.Unlink: behind a free record it says only what else does not change; the directory is not well formed afterwards.
- Commands.Rmdir: the same.
- Commands.LinkFile: the link count is unbounded; the code's is 16 bits wide and wraps after 65535 links.
- Commands.CreateFile: for a file with data, with no whole block to spare after it and no room in a direct block of a directory that is not at its limit, whether the name finds room is not decided beforehand; nothing else changes either way. The same goes for a long symlink of `MakeSymlink` and for `Mkdir`.
- Grow.GrowImage: starts after the evacuation pass; `Resize.ResizeGrow` puts the two together.
- Resize.ResizeGrow: asks that no text in pointer fields looks like data in the range (`Evacuate.PlainTextsClear` gives that). Whether the way can be cleared depends on where the allocator finds room on the way, so the condition names the pass's answer; it is known beforehand where direct data and roots are clear already, and where a root is not.
- Grow.InitCg: asks for metadata that starts block-aligned and, with the rest of its last block, fits the group.
- Grow.Pass5: an index past the rotational tables is skipped, where the C code does not check it; rotors, cylinder counts and times, which it also rewrites, are not modelled.
- FsckClaims.Checker.FindDuplicates: nothing is claimed when MAXDUP or MAXBAD cuts an inode off, and block addresses are not negative. Where pass 1b's walks differ from pass 1's and something was claimed twice, which inode it marks is not stated.
- FsckWalk.CkInode: clearing the pointers of a partially truncated inode is reported and not carried out.
- FsckWalk.CheckBlocks: asks for metadata first in every group, the summary area right after it in group 0 and more than one pointer to an indirect block; the product of entry number and bytes below it wraps at 32 bits, while file sizes and the bytes below one entry are unbounded (`SizesFit` bounds the latter).
- FsckClean.Fsck: directory blocks are read as the bytes of the file. On orderly directories pass 3 has nothing to connect, since every directory is found. On others it says what is read, and what passes 2 and 4 make of it where every directory as read begins with its dots (directories in good form do); the block passes are `FsckWalk.CheckBlocks`, for any verdicts, and passes 3 and 5 and lost+found are not modelled there.
- FsckTree.Descent.Pass2Check: a path that fills pass 2's path buffer, on which fsck gives up (src/fsck/pass2.c:193-199), is not modelled; directories nested deep enough reach it.
- FsckTree.Descent.Pass2: asks for an allocated, non-empty root and for "." and ".." as the first two records; entries naming inode 1, which abort fsck, count as unallocated. Pass 3 and lost+found are not modelled.
- Vdi.Open: takes the header as decoded, and asks that the map ends before the data begins where the code asks only that it starts there.
- Vdi.Backend.Write: asks for a consistent header (every guest byte has a map entry, the file holds its slots); raw backends are read only as parents.
- Cylinder-group magic checks and limit checks, short reads and writes, fsync, malloc failure, timestamps, owners, modes and permissions.
- Metadata areas are structured fields, not bytes: group buffers, summary table, totals and inode table; the bit packing of maps is not modelled. Indirect blocks, file data, directory records and VDI files are bytes.
- Counters are unbounded integers. Fragment and inode numbers are 32-bit where they are stored in bytes.
- The cylinder-group mask appears only as the period of `cg & ~mask`.
- Path resolution, the disk label, FUSE, the command line, reports, the stress harness and parent lookup by UUID.
