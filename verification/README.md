# EXT2 commands, verified

A Dafny model of the EXT2 Commands: `ext2_mkdir`, `ext2_cp`, `ext2_ln`, `ext2_rm`, `ext2_restore` and
`ext2_checker`, with the routines of `ext2_utils.c` they are made of. `dafny verify dfyconfig.toml`
checks everything.

The disk is what the programs see: bitmap bytes, an inode table, blocks of 1024 bytes and the
counters of the superblock and the group descriptor. Directory blocks are bytes, not lists, because
what a removed record leaves behind in its predecessor's slack is what `ext2_restore` works with. The
record layout is the Linked Directory Entry Structure of "The Second Extended File System: Internal
Layout" (Dave Poirier).

There are two layers.

* `DiskState`, `Directory`, `Restoration`, `Writing`, `Lookups`, `Commands` and `Checker` say what each
  step does to a disk as a value, branch by branch as the code has it, its oddities included.
* `DiskImage.Disk` is the disk as an object whose arrays and counters the routines overwrite, with the
  loops of the program. Each method is proved to have exactly the effect of its step: `Snap()` after
  the call is the step applied to `Snap()` before it. `Bitmaps`, `DirBlocks` and `PathBuffers` do the
  same for the bit operations, the scans of a block and the path buffers.

The rest proves what the steps are for. `Invariant` states what must hold between all the structures:
counters equal clear bits; no block has two owners and each owned one is marked; the blocks of the
superblock, the bitmaps and the inode table are marked and owned by nobody; record chains are sound;
link counts are the numbers of live records. `Insertion`, `RemovalProofs`, `RemovalInv`, `NewInodes`,
`CopyProofs`, `RestoreTree`, `RestoreSafe`, `RestorePrefix` and `Runs` show when a command keeps it,
succeeding or stopping half-way, and so along which runs it holds; `StepExactness` that these conditions
are exact: a command that does not meet its condition breaks the invariant. `SystemArea`, `DirCounts` and
`NameRuns` are about the system's blocks, the count of directories and the distinctness of names along
runs. `InsertLooks`, `Tree`, `TreeSteps`, `PathChanges` and `TreeRefinement` show that each command is one
insertion into, or deletion from, an abstract tree of names, and what becomes of paths. `RmRestore`,
`CpRm` and `CpRmRestore` are about commands that undo each other, `WriteProofs` about reading back what
was written, `Room` about when a record fits, `CommandSuccess` about when a command succeeds and when it
leaves the disk as it was, `Effects`, `CommandEffects`, `RestoreEffects` and `Counters` about all that it
changes, on disks that need not be sound, `RawPass` and `RawEffects` about the restoring loop in machine
arithmetic, `RestoreWalk` and `CheckerWalk` about walks over records that are being changed, and `CheckerRuns`, `CheckerBlocks`,
`CheckerEffects` and `CheckerInv` about whole runs of the checker. `Runs.BlankInv`, `DirCounts.BlankDirs` and
`NameRuns.BlankNames` give a disk that meets all of it.

Where the code does not do what its description says, the code is modelled and the exact condition is
proved; the disks named here are concrete cases:

* `new_dir_entry` is described as inserting an entry. When the last block is full it replaces that block
  instead: the names in it are lost (`Exactness.InsertKeepsNamesIff`, in bytes `Room.InsertKeepsIff`) and the
  invariant breaks (`Insertion.InsertInv`). Disks: `CommandFailures.FullBlockReplaced`, and
  `CommandFailures.ExactFit` for the last name that fits.
* `ext2_cp` is described as copying to the destination. It does not look whether a destination directory
  has the name already, and then the copy is hidden behind the old record (`TreeRefinement.CpRefines`,
  from `InsertLooks.InsertLooksUp`). Disk: `CommandFailures.CopyHidden`. Names stay distinct along a run
  as long as every cp is given a new one (`NameRuns.RunNames`, exact for a single cp in
  `NameRuns.CpStepNames`). A source of more than 268 blocks is cut there, with success reported and a size that
  the blocks do not go with; up to 268 the copy reads as its source (`CommandEffects.CpMakes`, both ways).
* `ext2_ln` is described as linking at the destination. It does not look whether the parent of the
  destination is a directory, and writes a record into a file (`TreeRefinement.LnRefines`,
  `TreeRefinement.LnSRefines`). Disk: `CommandFailures.LinkIntoFile`. The record has the type of a regular file
  also when the source is a symbolic link (`CommandEffects.LnMakes`).
* `rm_dir_entry` is described as removing the entry of a name. When the entry heads its block, the one
  behind it goes (`Exactness.RmForgetsIff`, `TreeRefinement.RmRefines`). Disk:
  `Counterexamples.HeadNotRemoved`.
* `ext2_restore` is described as restoring a removed file. A record that lies behind one that stays hidden
  comes back as an inode that no directory lists (`RestorePrefix.RestoreLinks`). Disk:
  `Counterexamples.DeeperRestoreLost`. Where a hidden record is longer than its slack, the pass runs on
  into the records behind (`RawPass.StaysIffFits`); it still takes no live resource
  (`RawEffects.PassSpares`), and changes nothing exactly when nothing it meets matches
  (`RawEffects.PassIdleIff`), but a match may write into another record. Disk: `MisfitRestore.RestoreLeavesSlack`.
  Everything else about restores is for slacks whose hidden records fit.
* `ext2_checker` is described as fixing what is inconsistent. Setting the bit of a reserved inode makes the
  inode counters wrong (`CheckerRuns.SecondRunIdle`). Disk: `Counterexamples.SecondRunNotIdle`. The blocks
  it checks are those of the inode after the one a record names (`CheckerBlocks.BlockMarkedIff`,
  `CheckerBlocks.OwnBlocksMarkedIff`), which may be those of a removed file (`CheckerInv.RmThenChecker`).
  Disk: `CheckerBlocks.OwnBlockLeftClear`.
* A path that goes through a file at its last step, as in `/file/x`, resolves to the file
  (`Lookups.WalkIsResolve`). Disk: `Counterexamples.PathThroughFile`.

## Model

| member | source | states |
|---|---|---|
| `Bitmaps.SetBitByIndex` | ext2_utils.c:363-367 | shifting and or-ing the byte sets exactly bit n of the bitmap and no other |
| `Bitmaps.UnsetBitByIndex` | ext2_utils.c:370-374 | shifting and masking the byte clears exactly bit n and no other |
| `Bitmaps.FindFirst` | ext2_utils.c:132-157 | the scan over bytes and bits finds a bit if and only if a clear one that does not count as taken exists, and then it is the least such bit |
| `Bitmaps.CountClear` | ext2_checker.c:22-33 | the counting pass gives the number of clear bits, without those that count as taken |
| `DiskImage.Disk.NewBlock` | ext2_utils.c:403-419 | the least clear bit is set and both free-block counters go down with C wrap-around, or nothing changes when there is none |
| `DiskImage.Disk.NewInode` | ext2_utils.c:384-400 | the least free inode that is not reserved is taken and both free-inode counters go down, or nothing changes |
| `DiskImage.Disk.NewInodeOf` | ext2_utils.c:444-498 | the taken inode gets its mode and is otherwise empty: no links, no size, no blocks |
| `NewInodes.NewInodeInv` | ext2_utils.c:384-498 | a new inode of any kind keeps the whole invariant: counters equal clear bits, ownership is disjoint and marked, link counts equal record counts |
| `DirBlocks.DirEntryByName` | ext2_utils.c:327-341 | the loop over lengths returns the first record of that name on the chain, or nothing when no record has it |
| `DirBlocks.DirEntryBeforeName` | ext2_utils.c:344-360 | the loop returns the record before the first one of that name, and that record itself when it heads the block |
| `DirBlocks.PredecessorIs` | ext2_utils.c:344-360 | away from the head, the result is a record of the chain that ends exactly where the named one starts |
| `DirBlocks.TailScanStops` | ext2_utils.c:514-517 | the off-step scan ends at the first record whose doubled length reaches past the block by the first record's length, always on a record boundary; it runs out of the block if and only if no record does |
| `DirBlocks.TailScanStays` | ext2_utils.c:514-517 | if the last record of a block is at least as long as its first, the scan ends inside the block |
| `DirBlocks.FindTail` | ext2_utils.c:514-517 | the loop computes that scan |
| `DirBlocks.InsertSplits` | ext2_utils.c:519-550 | the byte stores cut the record to its own size and put the new record, with number, name and type, in all the room gained; other bytes stay |
| `DirBlocks.InsertLive` | ext2_utils.c:510-550 | the new chain is the old one with exactly one record more, right behind the one the scan stopped at; all others stay in order and the sum stays 1024 |
| `DirBlocks.UnlinkLive` | ext2_utils.c:686-690 | taking over the next length removes exactly that record from the chain and leaves all others at their offsets |
| `Directory.FindSlotIs` | ext2_utils.c:69-107 | going block by block finds the first match over the concatenated live chains, and fails if and only if there is none |
| `DiskImage.Disk.InodeDirEntryFind` | ext2_utils.c:69-107 | the look-up over the direct slots answers with the first match, and fails on a blank record |
| `Insertion.InsertShape` | ext2_utils.c:501-558 | with room, the directory's records are the old ones in order plus one, behind the record the scan stopped at, which gave up exactly the new record's length |
| `Insertion.GrowShape` | ext2_utils.c:530-550 | a directory without blocks gets one block that holds the new record alone, 1024 long |
| `Insertion.InsertInv` | ext2_utils.c:501-558 | new_dir_entry keeps the whole invariant, also when it fails for lack of blocks, if and only if it does not replace the last block of the directory |
| `InsertLooks.InsertLooksUp` | ext2_utils.c:501-558 | look-ups of other names answer as before; the new name is answered with the new record if and only if no record up to the one the tail scan stops at has it, and as before otherwise |
| `Exactness.InsertKeepsNamesIff` | ext2_utils.c:510-536 | a successful insertion of a new name keeps all old names if and only if there was room or the directory had no block; otherwise the new block has replaced the last one |
| `Room.InsertKeepsIff` | ext2_utils.c:510-536 | a successful insertion keeps every record and adds one of the inode, the name and the type if and only if the directory had no block or the record the scan stops at in its last block is at least as long as itself and the new one, each 8 bytes and the name up to the next multiple of 4 beyond them |
| `Effects.InsertEffect` | ext2_utils.c:501-558 | of all inodes a successful insertion changes only the child's link count and, if there was no room, the directory's pointers, sectors and size; no block in use changes but the one with the room; the lowest free block is taken if there was none |
| `DiskImage.Disk.NewDirEntry` | ext2_utils.c:501-558 | the routine in place makes exactly the step about which the insertion results are proved, with the same success |
| `RemovalProofs.RmShape` | ext2_utils.c:561-594 | away from the head of a block exactly the named record leaves the live chain; its predecessor takes its length; every other record and offset stays |
| `RemovalInv.RmInv` | ext2_utils.c:561-599 | rm_dir_entry keeps the whole invariant, at the head of a block too, if and only if it does not take the last link of a directory; an inode and its blocks are freed just when its last record goes |
| `RemovalInv.EditLooks` | ext2_utils.c:561-582 | away from the head the name is answered with the next record of that name; at the head it is answered as before, and it is the name of the record behind that may be answered differently; all others as before |
| `RemovalProofs.DropAllCounted` | ext2_utils.c:433-441 | clearing the bits of distinct marked blocks one by one keeps both counters equal to the clear bits |
| `Exactness.RmForgetsIff` | ext2_utils.c:566-582 | with distinct names, the name is gone afterwards if and only if its record did not head a block |
| `DiskImage.Disk.RmDirEntry` | ext2_utils.c:561-594 | the routine in place, with its search loop and its loop freeing blocks, makes exactly the removal step |
| `WriteProofs.WriteOutcome` | ext2_utils.c:636-683 | the write succeeds if and only if the free blocks are at least ceil(n/1024), plus 1 beyond twelve blocks, where n is the length or, if that is more, 268 blocks; it then uses exactly so many and i_blocks grows by twice that; failing, it leaves no free block |
| `WriteProofs.WriteReadsBack` | ext2_utils.c:636-683 | after a successful write, reading by i_size through direct pointers and the indirect table gives back the source, for every length up to 268 blocks; the pointers ascend strictly: direct, table, table entries |
| `WriteProofs.WriteSparesFiles` | ext2_utils.c:636-683 | successful or not, a write leaves what every other file reads as unchanged |
| `WriteProofs.WriteFrame` | ext2_utils.c:636-683 | a write changes no other inode and no block that was marked in use |
| `WriteProofs.WriteFile` | ext2_utils.c:636-683 | of the inode itself a write sets the size, successful or not, and changes nothing else but blocks and sectors; the blocks it takes are the lowest free ones |
| `CopyProofs.WriteInv` | ext2_utils.c:636-683 | up to twelve blocks, a write into a fresh file keeps the whole invariant, also when blocks run out |
| `DiskImage.Disk.WriteStringToBlocks` | ext2_utils.c:636-683 | the two loops in place compute exactly the write about which those results are proved |
| `CpRm.CpThenRm` | ext2_cp.c:67-84 | cp of up to twelve blocks into a directory with room for a new name, then rm: bitmaps, all counters, inodes in use and the live records with their lengths are those of before, whether or not the copy was complete |
| `RestoreProofs.RestoreAlloc` | ext2_restore.c:44-125 | where the hidden records of the directory fit their slacks, a restore takes no live resource: inodes in use and marked blocks stay as they are, no block gets a second owner, counters stay right; it takes effect if and only if a hidden record of that name has a free inode and free blocks, and changes nothing otherwise |
| `RestorePrefix.RestoreLinks` | ext2_restore.c:57-101 | after a restore, of any number of matches at any depth, link counts equal record counts if and only if the records revived are a prefix of their slack |
| `RawPass.PassIsRest` | ext2_restore.c:58-101 | in a slack whose hidden records fit, the loop with its wrapping 32-bit padding and its 16-bit lengths is the pass over the hidden records |
| `RawPass.StaysIffFits` | ext2_restore.c:58-61 | the loop takes only bytes of its slack for records if and only if each hidden record ends within the slack |
| `RawEffects.PassSpares` | ext2_restore.c:58-101 | whatever the loop takes for records, fitting or not, it changes no inode in use, unmarks no block, gives none a second owner and leaves the counters right |
| `RawEffects.PassIdleIff` | ext2_restore.c:58-101 | fitting or not, the loop changes nothing if and only if nothing of what it takes for records matches |
| `RestoreWalk.ScanSlackSound` | ext2_restore.c:53-101 | whatever one pass over a slack whose hidden records fit relinks, the block is still a chain summing to 1024, the record the walk is at still lies on it, and other blocks are untouched |
| `RestoreWalk.RelinkLiveSound` | ext2_restore.c:80-81 | relinking behind a live record gives a chain in which the restored record is live and ends where the old one did |
| `DiskImage.Disk.RestoreHelper` | ext2_restore.c:44-104 | the while loop over one slack, with its padding arithmetic, computes the pass over the hidden records |
| `DiskImage.Disk.RestoreBlock` | ext2_utils.c:177-190 | the walk whose callback shortens the current record ends at exactly 1024, tries every live record until one is restored and none after, and computes the scan of the block |
| `DiskImage.Disk.RestoreDirEntry` | ext2_restore.c:107-125 | the routine in place computes the scan of the directory, with its result and early exit |
| `RmRestore.RmRestoreIff` | ext2_restore.c:57-101 | remove, then restore, with no other match in the directory and hidden records that fit their slacks: the disk is the identical old one if and only if the file had one link and no deletion time and its predecessor was tight |
| `CpRmRestore.CpThenRmThenRestore` | ext2_restore.c:57-101 | cp, rm, restore: the disk is bit for bit the one after the cp, whether or not that was complete, if what is hidden in the directory fits its slack and nothing else of it matches the name |
| `Paths.JoinSplit` | ext2_utils.c:249-274 | joining directory part and name gives back the path if and only if it has a slash, so for every absolute path; the name never has one |
| `Paths.TrimmedName` | ext2_utils.c:240-246 | after trimming, an absolute path is still absolute and its name is empty if and only if the path was slashes only |
| `Paths.TrimComponents` | ext2_utils.c:240-246 | trimming does not change the components of a path |
| `Paths.ComponentsSplit` | ext2_utils.c:249-289 | the components of a path are those of its directory part followed by its name, if that is not empty |
| `Paths.ComponentsJoin` | ext2_utils.c:625-633 | the components of a joined path are those of the one part followed by those of the other |
| `Paths.SingleComponent` | ext2_utils.c:277-289 | a text without a slash is one component, or none if it is empty |
| `Lookups.WalkIsResolve` | ext2_utils.c:292-316 | the walk equals the fold of single look-ups over the components if and only if the path does not lead through a file at its last step; if it does, the walk gives that file |
| `PathBuffers.TrimTrailingSlash` | ext2_utils.c:240-246 | cutting slashes in the buffer leaves the trimmed text |
| `PathBuffers.GetFilepath` | ext2_utils.c:249-260 | the copy, cut at its last slash, holds the directory part |
| `PathBuffers.GetFilename` | ext2_utils.c:263-274 | the text at the returned place is the last name |
| `PathBuffers.PathCursor.Shift` | ext2_utils.c:277-289 | the pointer steps over slashes, the component is cut off in the buffer, and what lies ahead afterwards is the rest of the path |
| `DiskImage.Disk.InodeByFilepath` | ext2_utils.c:292-316 | the loop over the shifted buffer computes the walk |
| `StepExactness.MkdirKeepsIff` | ext2_mkdir.c:31-77 | mkdir, from its path on and wherever it stops, keeps the whole invariant if and only if it does not replace the last block of the parent |
| `StepExactness.CpKeepsIff` | ext2_cp.c:26-84 | so does cp, also when it stops for lack of inodes, records or blocks |
| `StepExactness.LnKeepsIff` | ext2_ln.c:47-83 | a hard link keeps the whole invariant if and only if it does not write its record into a file or replace a block |
| `StepExactness.LnSKeepsIff` | ext2_ln.c:47-96 | so does a symbolic link |
| `StepExactness.RmKeepsIff` | ext2_rm.c:27-51 | rm keeps the whole invariant if and only if it does not take its record out of a file, or the last link from a directory |
| `StepExactness.RestoreKeepsIff` | ext2_restore.c:141-159 | where hidden records fit their slacks, restore keeps the whole invariant if and only if the records it revives are a prefix of their slack |
| `StepExactness.RunKeepsIff` | ext2_utils.c:384-441 | over any run of the six commands, each used well or not, every disk of the run meets the invariant if and only if every command meets its condition |
| `Runs.RestoreStepInv` | ext2_restore.c:141-159 | where hidden records fit their slacks, any restore keeps the invariant but for links that no record holds |
| `RestoreSafe.RestoreKeepsSafe` | ext2_restore.c:44-125 | where hidden records fit their slacks, and however many matches a restore relinks, at whatever depth, ownership stays disjoint and marked, counters and chains stay right, every live record names an inode in use, and link counts are at least the record counts |
| `Runs.RunInv` | ext2_utils.c:384-441 | over every run of mkdir, cp, ln, ln -s, rm and restore that meets those conditions, successful or not: counters equal clear bits, no block has two owners, owned blocks are marked, directories are sound, and every link count is the number of live records naming the inode; with restores at any depth, at least that number |
| `Runs.RunAlloc` | ext2_restore.c:57-101 | over every run, restoring any number of records at any depth from readable slacks in between, no block is pointed to by two slots of inodes in use, every such block is marked and all counters equal the clear bits |
| `SystemArea.RunKept` | ext2_utils.h:20-28 | over every such run no command writes a block before the first data block, where superblock, group descriptor, bitmaps and inode table are |
| `DirCounts.RunDirs` | ext2_utils.c:384-498 | over every such run bg_used_dirs_count is the number of directory inodes in use |
| `NameRuns.CpStepNames` | ext2_cp.c:60-84 | if the names of every directory are distinct, a successful cp leaves them so if and only if the directory did not have the name |
| `NameRuns.RunNames` | ext2_cp.c:60-84 | over every such run in which cp is given new names and a restore finds at most one record, at the front of its slack, the names of every directory stay distinct |
| `CommandSuccess.MkdirSucceedsIff` | ext2_mkdir.c:31-77 | mkdir succeeds if and only if the path is absolute, its directory part leads to a directory and itself nowhere, an inode is free, and one block, or two if the parent has no room; the disk is as before if and only if no inode is free or one of the first three fails |
| `CommandSuccess.CpSucceedsIff` | ext2_cp.c:26-84 | cp succeeds if and only if the destination is absolute and a directory, or nothing in one, the name has at most 255 bytes, the source can be read, and an inode and the blocks of the file are free, with one more if the directory has no room; it changes nothing if and only if the paths, the source or the inode fail |
| `CommandSuccess.LnSucceedsIff` | ext2_ln.c:47-83 | a hard link succeeds if and only if both paths are absolute, the source leads to no directory, the destination nowhere and its directory part somewhere, the name has at most 255 bytes, and there is room or a free block; otherwise the disk is as before |
| `CommandSuccess.LnSSucceedsIff` | ext2_ln.c:47-96 | the same for a symbolic link, which needs the blocks of the source path too; it changes nothing if and only if one of the conditions on the paths fails |
| `CommandSuccess.RmSucceedsIff` | ext2_rm.c:27-51 | rm succeeds if and only if the path is absolute and leads to an inode that is no directory, its directory part leads somewhere, and there is a record of the last name there; otherwise the disk is as before |
| `RestoreEffects.RestoreSucceedsIff` | ext2_restore.c:141-159 | restore succeeds if and only if the path is absolute and leads nowhere, its directory part to a directory, and, of the records hidden behind the first live one that has a match behind it, at least one can be taken and none of a directory is come to; it changes nothing if and only if none can be taken |
| `RestoreEffects.RestoreAtIff` | ext2_restore.c:57-101 | of several matches in one slack each is taken whose inode and blocks neither were in use nor were taken by one before it; exactly their inodes get their bits, a link more and no deletion time, and exactly their blocks are marked |
| `RestoreEffects.RestoreBytes` | ext2_restore.c:79-97 | a restore changes no byte but lengths of live records and of records hidden behind them |
| `CommandEffects.CpMakes` | ext2_cp.c:60-84 | a successful cp makes a regular file of the lowest free inode, with one link, the time, the size and the sectors of the source; it reads as the source up to 268 blocks and is unreadable beyond them; it takes the lowest free blocks; every other inode and every file that does not share the directory's last block stays as it was; the directory gets a record of it, of type 1, and keeps all others if and only if there was room or it had no block |
| `CommandEffects.LnSMakes` | ext2_ln.c:85-96 | ln -s does the same with a symbolic link that reads as the source path and a record of type 7 |
| `CommandEffects.MkdirMakes` | ext2_mkdir.c:56-77 | a successful mkdir makes a directory of the lowest free inode, with two links, one block, and exactly the records "." and ".."; the parent gets a link and a record of type 2; nothing else in use changes |
| `CommandEffects.LnMakes` | ext2_ln.c:78-83 | a successful ln gives the source's inode one link more and the directory a record of it, of type 1; no other inode changes, and no inode is taken |
| `CommandEffects.RmRemoves` | ext2_rm.c:44-51 | a successful rm takes one link from one inode, whose bit and blocks are freed, and counted, if and only if it was the last; everything else of all inodes stays; one block changes, by the one record that goes |
| `Counters.AddingCounted` | ext2_utils.c:384-419 | mkdir, cp, ln and ln -s, successful or not and whatever the size of the file, keep all four counters equal to the clear bits |
| `TreeRefinement.MkdirRefines` | ext2_mkdir.c:49-77 | the new inode is a directory with two links, of which the parent has one record, of type 2; the tree of names gains it, its "." to itself and its ".." to the parent; its path resolves to it if and only if no blank record of the name comes first; every path that resolved still resolves to the same inode |
| `TreeRefinement.CpRefines` | ext2_cp.c:60-84 | an inode that was free is now a regular file, with one link, that reads as the source, and the directory has one record of it, of type 1, and all that it had; the destination, or the source's name in it if something was there, resolves to it if and only if no record of that name comes first; if one does, every path resolves as before; if none does, a path whose walk uses the name leads to the copy or nowhere; every path that does not use it resolves as before |
| `TreeRefinement.LnRefines` | ext2_ln.c:47-83 | after a successful ln only the link count of the source and the directory have changed, the latter by a record of type 1; the disk is sound if and only if the parent is a directory; the destination resolves to the source's inode if and only if, besides, no blank record of the name comes first; the tree gains the one edge, or none if the parent is a file; every path that resolved still does |
| `TreeRefinement.LnSRefines` | ext2_ln.c:47-96 | the same of a new inode, which is a symbolic link that reads as the source path, named by one record, of type 7 |
| `TreeRefinement.RmRefines` | ext2_rm.c:30-51 | the tree changes at most at one name: the one given or, at the head of a block, that of the record behind; away from the head the path resolves to the next record of the name, or to nothing; at the head it still leads to the file, if its directory part does not go through the other name; every path that does not use the changed name resolves as before, and every other one to nothing if the name is gone |
| `TreeRefinement.RestoreRefines` | ext2_restore.c:144-159 | the tree gains one edge to the revived inode, which was free, and the path resolves to it; every path that resolved still does |
| `CheckerProofs.AllHold` | ext2_checker.c:36-134 | all checks done in order, every one of them holds, also those done before later repairs |
| `CheckerProofs.ShapeChecks` | ext2_checker.c:123-134 | repairs do not change what there is to check, though the walk runs over records being repaired |
| `CheckerRuns.FixesReported` | ext2_checker.c:160-195 | the number of fixes is the wrong counters plus the set bits, cleared deletion times and changed type bytes by which the disk differs |
| `CheckerRuns.CountersAfterRun` | ext2_checker.c:61-105 | after a run the block counters equal the clear bits; the inode counters do if and only if no root record named a reserved inode with a clear bit |
| `CheckerRuns.SecondRunIdle` | ext2_checker.c:157-188 | a second run makes no fix and changes nothing if and only if no root record named a reserved inode with a clear bit; otherwise it makes exactly two fixes, the inode counters |
| `CheckerRuns.RunPutsInOrder` | ext2_checker.c:36-120 | afterwards every root record has the type of its inode, whose bit is set and deletion time zero, and the blocks of the inode one index further are marked |
| `CheckerBlocks.BlockMarkedIff` | ext2_checker.c:93-120 | after a run a block is marked if and only if it was before or belongs to the inode whose index is the inode number of some root record |
| `CheckerBlocks.OwnBlocksMarkedIff` | ext2_checker.c:108-120 | the blocks of any inode are all marked after a run if and only if each was before or belongs to an inode one index beyond one that a root record names |
| `CheckerEffects.TypesAfterRun` | ext2_checker.c:36-58 | after a run every record of the root, and of every unreserved directory that a root record names, but as "." or "..", has the type of its inode: 2 for a directory, 7 for a symbolic link, 1 for a regular file |
| `CheckerEffects.ByteChangesIff` | ext2_checker.c:36-58 | a run changes a byte of a block if and only if it is the type, and not that of the inode, of a live record of the root or of such a directory |
| `CheckerEffects.InodeChangesIff` | ext2_checker.c:61-90 | a run sets the bit of an inode and clears its deletion time if a root record names it, and changes nothing else of any inode |
| `CheckerEffects.NoRootNoChange` | ext2_utils.c:160-174 | if the root is no directory, a run changes nothing but the four counters |
| `CheckerInv.CheckerKeepsInv` | ext2_checker.c:137-197 | a run of the checker keeps the whole invariant |
| `CheckerInv.NoFixIff` | ext2_checker.c:36-134 | on a sound disk the checker makes no fix if and only if every check holds, and then it changes nothing |
| `CheckerInv.BlocksStayFreeIff` | ext2_checker.c:93-120 | the blocks of an inode are free after a run if and only if they were before and none belongs to an inode one index beyond one that a root record names |
| `CheckerInv.RmThenChecker` | ext2_checker.c:93-120 | so after rm and a run of the checker the removed file's blocks are still free, as restore asks, exactly when none of them is so reached |
| `CheckerInv.CheckerHidesFile` | ext2_restore.c:60-70 | after a run of the checker that reached one of its blocks, restore takes no record of that inode for a match |
| `DiskImage.Disk.CheckDirEntry` | ext2_checker.c:123-134 | the callbacks on one root record compute exactly its list of checks |
| `DiskImage.Disk.CheckDisk` | ext2_checker.c:137-197 | the whole program in place computes the run about which those results are proved |
| `CommandFailures.FullBlockReplaced` | ext2_cp.c:67-84 | three files with names of 255 bytes fill the root's block; a cp of a fourth reports success, the three names are gone and the disk is not sound |
| `CommandFailures.ExactFit` | ext2_utils.c:519-530 | the same three files: a cp of a fourth with a name of up to 223 bytes, which then fills the block exactly, keeps all the names; a longer one loses them |
| `CommandFailures.CopyHidden` | ext2_cp.c:60-84 | cp of "a" into "/", which has one: success is reported, "/a" leads to the old file and nothing to the new one |
| `CommandFailures.LinkIntoFile` | ext2_ln.c:47-83 | two files "/a" and "/b"; ln "/a" "/b/y/x" reports success, the path leads nowhere and the link count of "/a" is one too high |
| `Counterexamples.HeadNotRemoved` | ext2_utils.c:566-582 | two records; removing the first reports success and its name is still found |
| `Counterexamples.DeeperRestoreLost` | ext2_restore.c:79-97 | a sound disk with a match behind another hidden record; restoring it reports success and leaves a link that no record holds |
| `MisfitRestore.RestoreLeavesSlack` | ext2_restore.c:90-97 | a sound disk with a hidden record longer than its slack; restoring a file whose record lies directly behind a live one reports success, but its record is still not live and another file has lost its name |
| `CheckerBlocks.OwnBlockLeftClear` | ext2_checker.c:108-120 | a root file with one block whose bit is clear; after a run it still is |
| `Counterexamples.SecondRunNotIdle` | ext2_checker.c:61-76 | a root record of a reserved inode with a clear bit; the second run makes two fixes |
| `Counterexamples.PathThroughFile` | ext2_utils.c:304-313 | "/a/b" leads to the file "/a", which has no "b" |
| `DiskImage.Disk.RunMkdir` | ext2_mkdir.c:20-79 | the program in place, with its checks in order, makes exactly the mkdir step and succeeds when it does |
| `DiskImage.Disk.RunCp` | ext2_cp.c:19-86 | the program in place makes exactly the cp step |
| `DiskImage.Disk.RunLn` | ext2_ln.c:35-83 | the program in place makes exactly the hard-link step |
| `DiskImage.Disk.RunLnS` | ext2_ln.c:35-96 | the program in place makes exactly the symbolic-link step |
| `DiskImage.Disk.RunRm` | ext2_rm.c:20-53 | the program in place makes exactly the rm step |
| `DiskImage.Disk.RunRestore` | ext2_restore.c:134-161 | the program in place makes exactly the restore step |

## Left out

- DirBlocks.FindTail: blocks whose scan would leave the 1024 bytes, where the code reads what lies behind the block.
- DiskImage.Disk.InodeDirEntryFind: directories with an indirect block.
- Insertion.InsertInv: the child has fewer than 65535 links.
- InsertLooks.InsertLooksUp: a last block that is full, which is replaced; `Exactness.InsertKeepsNamesIff` is about that case.
- Room.InsertKeepsIff: directories of at most twelve blocks with sound chains, whose sector count goes with their blocks and whose blocks are not free, and tail scans that end inside the block.
- Effects.InsertEffect: directories of at most twelve blocks, tail scans that end inside the block, and a child other than the directory.
- DiskImage.Disk.NewDirEntry: directories of more than twelve blocks, and last blocks whose tail scan leaves the block.
- RemovalInv.RmInv: a head record that fills its block alone, where the code takes the bytes of the next block for the record to remove; inodes with indirect pointers.
- RemovalInv.EditLooks: the same.
- Exactness.RmForgetsIff: the same.
- RemovalProofs.RmShape: away from the head of a block; `RemovalInv.EditLooks` is about the head too.
- DiskImage.Disk.RmDirEntry: pointers are direct and lie inside the disk; a head record that fills its block alone.
- RestoreProofs.RestoreAlloc: hidden records fit their slacks and name inodes of the table, whose bits the code looks at before it compares names, without indirect pointers. `RawPass.StaysIffFits` says when the loop keeps to a slack, `RawEffects.PassSpares` what holds of it in any case, `MisfitRestore.RestoreLeavesSlack` what can happen.
- RestoreWalk.ScanSlackSound: the same condition on the slack.
- DiskImage.Disk.RestoreHelper: the same condition on the slack; names are shorter than 256 bytes, since the length is kept in one byte.
- DiskImage.Disk.RestoreBlock: the same condition on the slacks of the block.
- DiskImage.Disk.RestoreDirEntry: the same condition on the slacks of the directory.
- RmRestore.RmRestoreIff: the same condition on the slacks of the directory after the removal; the file is regular with direct pointers only, its record does not head a block, and no other hidden record in the directory matches the name.
- CpRmRestore.CpThenRmThenRestore: the same conditions, where the cp does not provide them.
- PathBuffers.PathCursor.Shift: a pointer past the terminator counts as the end of the text; the code would read the byte there.
- DiskImage.Disk.InodeByFilepath: directories have sound chains in direct blocks, and records name inodes of the table.
- RestorePrefix.RestoreLinks: the same condition on the slacks of the directory.
- RawEffects.PassIdleIff: passes that stay inside the block; the code reads on behind it.
- RestoreEffects.RestoreSucceedsIff: hidden records fit their slacks, and names are shorter than 256 bytes.
- RestoreEffects.RestoreAtIff: the same condition on the slacks.
- RestoreEffects.RestoreBytes: the same condition on the slacks.
- CommandSuccess.MkdirSucceedsIff: names of at most 255 bytes, directories of at most twelve blocks, and tail scans that end inside the block; the same of `CommandEffects.MkdirMakes`.
- CommandSuccess.CpSucceedsIff: directories of at most twelve blocks, and tail scans that end inside the block; likewise the other results of `CommandSuccess` and `CommandEffects`.
- CommandSuccess.LnSSucceedsIff: the same, and an inode is free.
- CommandSuccess.RmSucceedsIff: a head record that fills its block alone; inodes with indirect pointers.
- CommandEffects.CpMakes: what it says of the directory's records is for marked blocks that the sector count goes with.
- CommandEffects.RmRemoves: the same as for `CommandSuccess.RmSucceedsIff`, and the directory's blocks are distinct.
- Counters.AddingCounted: rm and restore, which `Runs.RunAlloc` is about.
- StepExactness.MkdirKeepsIff: the parent has fewer than 65535 links; names of at most 255 bytes, directories of at most twelve blocks, and tail scans that end inside the block.
- StepExactness.CpKeepsIff: files have at most twelve blocks, directories too, and tail scans end inside the block.
- StepExactness.LnKeepsIff: the linked inode has fewer than 65535 links; directories have at most twelve blocks, and tail scans end inside the block.
- StepExactness.LnSKeepsIff: an inode is free, because the code uses the result of new_inode_link without looking at it; the source path has at most twelve blocks; the same of directories.
- StepExactness.RmKeepsIff: the same as for `RemovalInv.RmInv`.
- StepExactness.RestoreKeepsIff: hidden records of the directory fit their slacks, as above.
- Runs.RestoreStepInv: the same condition.
- StepExactness.RunKeepsIff: all these conditions at each command of the run, but nothing on how it is used.
- RestoreSafe.RestoreKeepsSafe: the same condition.
- Runs.RunInv: every command of the run meets its condition, which `StepExactness.RunKeepsIff` shows to be exact for link counts that equal record counts.
- Runs.RunAlloc: the same conditions, but none on how many records are restored or how deep they lie.
- SystemArea.RunKept: the same conditions.
- DirCounts.RunDirs: the same conditions.
- NameRuns.CpStepNames: the cp does not replace a block.
- NameRuns.RunNames: the same conditions; cp is given new names, and restore finds at most one record, the first of its slack.
- TreeRefinement.MkdirRefines: the last block of the parent is not replaced, which `StepExactness.MkdirKeepsIff` is about.
- TreeRefinement.LnRefines: the same, which `StepExactness.LnKeepsIff` is about.
- TreeRefinement.LnSRefines: the same; and an inode is free.
- TreeRefinement.CpRefines: the same, and files of at most twelve blocks. The copy's own path is stated where the source name is not empty and has no slash, and the way to the directory does not itself go through the name.
- TreeRefinement.RmRefines: the parent is a directory, `StepExactness.RmKeepsIff` is about files; a head record that fills its block alone.
- TreeRefinement.RestoreRefines: hidden records fit their slacks, the match is single and directly behind its live predecessor, and no blank record of the name comes first. `RestorePrefix.RestoreLinks` is about the other matches.
- CheckerRuns.RunPutsInOrder: one way; `CheckerBlocks` has both directions for the blocks.
- CheckerRuns.SecondRunIdle: chains are well formed, root records name inodes, and the inodes whose blocks are walked have direct pointers only.
- CheckerRuns.FixesReported: the same conditions; the number is not wrapped at 32 bits, which a disk of fewer than 65536 blocks cannot reach.
- CheckerEffects.TypesAfterRun: the same conditions; likewise the other results of `CheckerEffects`.
- CheckerInv.CheckerKeepsInv: the same conditions as for `CheckerRuns.SecondRunIdle`; likewise the other results of `CheckerInv`.
- DiskImage.Disk.CheckDisk: the same conditions; blank root records are not walked over.
- DiskImage.Disk.RunMkdir: names of at most 255 bytes, directories of at most twelve blocks, and tail scans that end inside the block.
- DiskImage.Disk.RunCp: directories of at most twelve blocks and tail scans that end inside the block.
- DiskImage.Disk.RunLn: the same.
- DiskImage.Disk.RunLnS: the same, and an inode is free.
- DiskImage.Disk.RunRm: the pointers of every inode lie inside the disk, those of the removed one are direct; a head record that fills its block alone.
- DiskImage.Disk.RunRestore: hidden records of the directory fit their slacks; the pointers of every inode lie inside the disk; names are shorter than 256 bytes.
- Directories of more than twelve blocks, which the code does not handle, and the walks over indirect tables by rm, restore and the checker, which read the table one block too low.
- Doubly and triply indirect blocks, which the code never writes.
- Names longer than 255 bytes in mkdir, which does not check them; names with zero bytes.
- load_disk, mmap, reading the host file, argument parsing, messages, errno and exit codes: the file's content, the time and the paths are inputs, and a command only tells whether it succeeded.
- A host file is cut at its first zero byte, as the code does with strlen; its content beyond that is not modelled.
- Fields of the superblock and of inodes that the commands do not use.
- ext2_dump, which only prints.
- Concurrent runs on one image.
