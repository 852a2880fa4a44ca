# Verification of MFS, the SNTP clock and the NOR flash driver

A Dafny model of three parts of the MQX middleware, with proofs of what they keep.

**MFS, the FAT file system core** (`mfs/source/generic`). A cluster allocator over a mutable file
allocation table, directory slots stored along cluster chains, a one-sector write-back cache and a
list of open files.

- `MfsTypes`, `FatChain`, `Drive`: constants and error codes, what a well-formed chain is, the drive
  structure with the access to the table and the free count.
- `FatCodec`: how a cell of the table is packed into bytes for FAT12, FAT16 and FAT32.
- `DataSector`: the data sector cache, and the accesses past it, against a disk without a cache.
- `Cluster`: searching, releasing and extending chains, on a class with the table as an array.
- `DirSlots`, `DirSearch`, `LongName`, `DirEntry`: stepping through a directory, the search for a slot
  and for a run of free slots, the pieces of a long name, and the creation of an entry.
- `DirGrowth`: how many clusters a creation takes.
- `LfnRemoval`, `LfnEnding`, `LfnReading`: removing the pieces of a name, back over cluster boundaries, how
  that ends, and reading them.
- `Volume`, `Runs`: a whole volume as a state machine. Every live entry names no cluster or heads a
  chain; the chains are whole (in range, acyclic, ended by EOF) and pairwise disjoint. Eight kinds of
  steps (a chain grows, slots that own nothing are rewritten, a cluster is set aside, an entry is taken
  in hand or put down, a chain is given up, a file is opened or closed) keep this, so every run does.
- `Handles`, `Files`, `Subdir`, `RemoveDir`, `Rename`, `Lifetime`: the operations of the file system as methods that
  change the drive. They return, as ghost output, the run of steps that leads from the volume they
  found to the volume they leave; runs of consecutive operations join to one run, as in `Lifetimes.Lifetime`.
  Three operations can break the sequence. A rename that loses its file and a removal that leaks its directory
  end with the entry in hand; `Volumes.ForgetHand` says when the volume is in order without it, so that the
  next run can begin there. A removal through ".." that frees the chain of a directory which is still there
  is no run at all.
- `Tree`: which entries can be reached from the root directory, and what a move does to that.
- `Witness`, `WitnessNames`: concrete inputs for the expectations that fail.

**SNTP** (`apps/sntp_test/sntp.c`, module `Sntp`). 96-bit arithmetic on arrays of three words, and the
setting of the clock by the offset of RFC 2030, section 5, across NTP eras.

**NOR flash** (`nftl/source/spiflash_ll.c`, module `NorFlash`). The driver over a part that programs by
clearing bits, wraps inside a page, and ignores commands while it is busy.

Ghost parameters named `own` say which entry owns which chain, `dir` which directory an operation works
in. What the path parser, the search for a name and the memory allocator answer, and whether the device
takes a write, are parameters.

## What does not hold

The code is modelled as it is. These expectations fail. The first member named says exactly when, and the
one in parentheses shows an input.

- Extending by one cluster more than are free reports success: the search comes round to the newest
  cluster, which still reads unused. `Cluster.ExtendChain` (`Cluster.ExtendByTwoWithOneFree`)
- The search for a free cluster finds nothing if the remembered start is below 2. `Cluster.FindUnused`
  (`Witnesses.SearchFromZero`)
- Releasing a chain never reports a lost chain. `Cluster.ReleaseChain` (`Witnesses.ReleaseOfLostChain`)
- A FAT32 cell reads as written only if its reserved bits agree. `FatCodec.ReadsAsWritten`
  (`FatCodec.ReservedBitsExample`)
- Moving the data sector buffer drops the flush error, so waiting bytes can be lost.
  `DataSector.DataCache.ReadSector` (`Witnesses.RefusedFlush`)
- Transfers of whole sectors go past the data sector buffer, whatever it holds.
  `DataSector.DataCache.DirectRead`, `DataSector.DataCache.DirectWrite` (`Witnesses.StaleBuffer`)
- The walk over a fixed root directory visits its entries rounded up to whole sectors. `DirSlots.RootWalk`
  (`Witnesses.SeventeenEntries`)
- A long name is written to consecutive slots only if nothing in use lies between. `DirEntry.CreateEntry`
  (`Witnesses.SplitName`)
- The pieces of a name that begin before the cluster that precedes its entry's are not all removed, and
  cannot be read. `LfnRemoval.NameGoes`, `LfnReading.GetLongName` (`NameWitnesses.NameOutOfReach`)
- Removing an entry without pieces can delete a piece of another file. `LfnRemoval.OthersPieceGoes`
  (`NameWitnesses.AnothersPieceGoes`)
- A file that is open while it is truncated keeps its freed first cluster and writes there next.
  `Files.WriteAfterTruncate` (`Witnesses.WriteToFreed`)
- A rename within one directory counts the slots of the old name from the directory's first cluster. It loses
  the file if removing them fails, which it does in the first slot of any cluster of a directory other than the
  root. `Renames.RenameFile`, `Renames.RemovedInPlace` (`Witnesses.LostByRename`)
- Beyond the first cluster, such a rename deletes the pieces of another file and leaves its own.
  `Renames.WrongPiecesGo` (`NameWitnesses.RenameTakesPiece`)
- A file that is renamed while it is open stays open on a deleted slot, unless it gets the same slot again;
  its next update overwrites another slot. `Renames.RenameFile`, `Files.UpdateHits` (`Witnesses.OpenWhileMoved`)
- A directory can be moved below itself, out of reach. `Trees.MoveInTree` (`Witnesses.MovedIntoItself`)
- Removing a directory leaves its clusters behind if removing its name fails. `Removals.RemoveSubdir`,
  `LfnEnding.RemovalEnds` (`Witnesses.LeakedByRemoval`)
- Removing a directory takes live entries with it that lie where "." and ".." were. `Removals.RemoveSubdir`
  (`Witnesses.FileLostWithDirectory`)
- Removing a directory through the ".." of one that was moved frees its chain and keeps its entry.
  `Removals.RemoveSubdir` (`Witnesses.RemovedThroughDotDot`)
- The millisecond field of the clock leaves 0..999 for the last fractions of a second. `Sntp.SetTime`
  (`Witnesses.LastFraction`)

## Model

| member | source | states |
|---|---|---|
| `FatChain.NoRepeat` | mfs/source/generic/mfs_cluster.c:134-198 | a chain that is linked cell by cell and ended by EOF never repeats a cluster |
| `FatChain.ChainUnique` | mfs/source/generic/mfs_cluster.c:134-198 | a first cluster heads at most one whole chain |
| `Drives.Drive.GetCluster` | mfs/source/generic/mfs_fat.c:225-331 | a cell in range is read; outside it, InvalidClusterNumber and EOF |
| `Drives.Drive.PutFat` | mfs/source/generic/mfs_fat.c:345-466 | one cell changes, and a free count that was right stays right |
| `Drives.Drive.IncrementFree` | mfs/source/generic/mfs_cluster.c:38-50 | the count goes up unless it is unknown or the drive is read-only |
| `Drives.Drive.DecrementFree` | mfs/source/generic/mfs_cluster.c:52-64 | the count goes down unless it is unknown or the drive is read-only |
| `Drives.Drive.ClustersTile` | mfs/source/include/mfs_prv.h:284-285 | the first cluster begins where the data area does, and every other one where the one before it ends |
| `Drives.Drive.SectorInOneCluster` | mfs/source/include/mfs_prv.h:284-285 | every sector of the data area lies in exactly one cluster of the table, found by division, and no sector before it in any |
| `FatCodec.GetCell` | mfs/source/generic/mfs_fat.c:248-331 | what a packed cell of each table type means, with the end marks of that type read as EOF |
| `FatCodec.PutCell` | mfs/source/generic/mfs_fat.c:380-450 | the addressed cell takes the code and every other cell keeps its value, neighbours that share a byte included |
| `FatCodec.ReadsAsWritten` | mfs/source/generic/mfs_fat.c:380-450 | a write reads back as itself if and only if the reserved bits allow it |
| `FatCodec.ReservedBitsExample` | mfs/source/generic/mfs_fat.c:437-450 | freeing a FAT32 cell with a reserved bit set leaves it reading EOF |
| `FatCodec.UnusedAgrees` | mfs/source/generic/mfs_fat.c:380-450 | the stored bits are zero, as the free counter looks at them, if and only if the cell means unused, as the allocator does |
| `FatCodec.CellsEndToEnd` | mfs/source/generic/mfs_fat.c:248-331 | the cells lie end to end: cell n of any type is the number that the half bytes from n times the width of a cell on hold, the lowest first |
| `FatCodec.EofCodes` | mfs/source/generic/mfs_fat.c:248-331 | the last eight codes of a cell, and on FAT32 the larger ones with a reserved bit, mean EOF, and no other |
| `DataSector.DataCache.Flush` | mfs/source/generic/mfs_data_sector.c:47-76 | the disk that is seen through the cache never changes; the device takes it on when the write succeeds |
| `DataSector.DataCache.Invalidate` | mfs/source/generic/mfs_data_sector.c:88-108 | the buffer is dropped unless the drive is read-only |
| `DataSector.DataCache.ReadSector` | mfs/source/generic/mfs_data_sector.c:119-152 | the buffer shows the sector asked for; waiting bytes reach the device if and only if the drive takes the write or they change nothing |
| `DataSector.DataCache.Store` | mfs/source/generic/mfs_write.c:230-246 | a write into the buffer is that write on the disk without a cache; without the device read, the bytes around it are those the buffer held before |
| `DataSector.DataCache.DirectRead` | mfs/source/generic/mfs_read.c:215-240 | a whole-sector read past the buffer is right if and only if the sector is not waiting in the buffer, or does not differ |
| `DataSector.DataCache.DirectWrite` | mfs/source/generic/mfs_write.c:280-318 | a whole-sector write past the buffer is that write on the disk without a cache if and only if the sector is not the buffered one, or the buffer holds the same bytes |
| `DataSector.MeetsBuffered` | mfs/source/generic/mfs_write.c:280-318 | which direct accesses meet the buffered sector: a write to it, and a read while it waits |
| `DataSector.WriteReadsBack` | mfs/source/generic/mfs_write.c:176-245 | every written byte reads back, no other sector changes, and the rest of the sector is kept exactly if it was read, was buffered, or agrees |
| `DataSector.TailKeepsFile` | mfs/source/generic/mfs_write.c:361-372 | the last write, which skips the read at the end of the file, changes no other byte of the file |
| `DataSector.Run` | mfs/source/generic/mfs_data_sector.c:47-152 | over every run of loads, writes with and without the device read, flushes and direct accesses that do not meet the buffered sector, each load returns what a disk without a cache would hold |
| `DataSector.RunAndFlush` | mfs/source/generic/mfs_data_sector.c:47-76 | after a last flush the device itself is that disk |
| `Cluster.FindUnused` | mfs/source/generic/mfs_cluster.c:76-123 | the first unused cluster at or after the start, around the table; INVALID if and only if there is none or the start is below 2 |
| `Cluster.NextFreeUnique` | mfs/source/generic/mfs_cluster.c:76-123 | the search has one answer |
| `Cluster.ReleaseChain` | mfs/source/generic/mfs_cluster.c:134-198 | ends on every table, cyclic and cross-linked ones included; clears what following the links reaches; drops the data sector buffer if and only if the cluster that its sector lies in, counted from the beginning of the data area, is cleared; never reports a lost chain |
| `Cluster.ReleasedOnlyFrees` | mfs/source/generic/mfs_cluster.c:151-191 | on any table a release only turns cells unused |
| `Cluster.ReleaseWellFormed` | mfs/source/generic/mfs_cluster.c:151-191 | on a whole chain it frees exactly that chain's cells |
| `Cluster.NoFreedSectorBuffered` | mfs/source/generic/mfs_cluster.c:166-180 | after a release the buffered sector lies in no freed cluster |
| `Cluster.FlushAfterRelease` | mfs/source/generic/mfs_data_sector.c:64-72 | no later flush changes a sector of the data area whose cluster was freed |
| `Cluster.ExtendChain` | mfs/source/generic/mfs_cluster.c:209-296 | with enough free clusters exactly n distinct ones, next-fit, behind the old tail; with fewer, all of them; whole again either way; NoError if and only if n fit or exactly one is missing and some are free; the search hint is the last one added |
| `Cluster.AddCluster` | mfs/source/generic/mfs_cluster.c:307-315 | one free cluster is linked behind the tail; DiskFull if and only if none is free |
| `Cluster.ExtendByTwoWithOneFree` | mfs/source/generic/mfs_cluster.c:256-289 | a shortfall that is reported as success |
| `Cluster.ExtendKeepsOther` | mfs/source/generic/mfs_cluster.c:254-289 | a chain without the extended tail stays whole and shares no cluster with the new ones |
| `Cluster.FreeSpace` | mfs/source/generic/mfs_cluster.c:481-521 | the remembered count and the scan give the number of unused clusters |
| `DirSlots.Increment` | mfs/source/generic/mfs_dir_entry.c:598-658 | one step to the next slot, with the cluster that is left handed back as the previous one |
| `DirSlots.WalkVisitsAll` | mfs/source/generic/mfs_dir_entry.c:598-658 | repeated steps visit every slot of a chain once, in order, and then reach EOF; the previous cluster is always the predecessor in the chain |
| `DirSlots.RootWalk` | mfs/source/generic/mfs_dir_entry.c:616-640 | in the fixed root the walk visits the root entries rounded up to whole sectors, so exactly them if and only if they fill sectors |
| `DirSlots.FindSlot` | mfs/source/generic/mfs_search.c:108-275 | the search without a name, for space, a piece or anything in use: it ends at the first slot that it does not pass by, takes it or hands everything back, and hands out the cluster before |
| `DirSlots.SearchEnds` | mfs/source/generic/mfs_search.c:130-166 | the search ends at the first slot that was never used, that is deleted if space is looked for, that holds a piece if a piece is, or anything if anything is |
| `DirSlots.FindFree` | mfs/source/generic/mfs_search.c:108-275 | for an empty name, the first free slot at or after the given one in the order of the directory, found if and only if there is one |
| `DirSearch.FindRun` | mfs/source/generic/mfs_dir_entry.c:126-176 | the search ends: at the first long enough run if and only if there is one, and otherwise at the last block of free slots |
| `DirSearch.StartsOnce` | mfs/source/generic/mfs_dir_entry.c:126-176 | there is one place where the search can end |
| `DirSearch.BehindRoot` | mfs/source/generic/mfs_dir_entry.c:616-640 | the step from the last slot of a fixed root leads to cluster number 1, or to slots that do not fill a sector |
| `LongName.NameToUnits` | mfs/source/generic/mfs_lfn.c:711-786 | a slot takes up to 13 characters, then one zero, then 0xFFFF |
| `LongName.Extract` | mfs/source/generic/mfs_lfn.c:498-549 | the low bytes of the units before the first zero or 0xFFFF |
| `LongName.WritePieces` | mfs/source/generic/mfs_dir_entry.c:271-322 | ceil(len / 13) pieces, ordinals counting down to one, the end mark on the first written only |
| `LongName.JoinedIsName` | mfs/source/generic/mfs_dir_entry.c:271-322 | the pieces joined by ascending ordinal are the name |
| `LongName.LfnChecksum` | mfs/source/generic/mfs_lfn.c:797-815 | the loop over the bytes of a short name, by masks and shifts, against the arithmetic function that is in every piece |
| `LongName.ChecksumStep` | mfs/source/generic/mfs_lfn.c:807-810 | each further byte of the short name turns the checksum, a byte, right by one bit and is added to it, without a carry out |
| `LongName.ChecksumExample` | mfs/source/generic/mfs_lfn.c:797-815 | the checksum of LONGNA~1.TXT is 0xF4 |
| `LongName.ShareBitIsAnd` | mfs/source/generic/mfs_lfn.c:1020 | the test of a piece's ordinal against the counter is their bitwise and |
| `LfnReading.GetLongName` | mfs/source/generic/mfs_lfn.c:936-1042 | in any directory, a name written as consecutive pieces in front of its entry is read back as it was if and only if every cluster boundary among them can be gone back over |
| `LfnRemoval.GetPrevCluster` | mfs/source/generic/mfs_lfn.c:825-885 | the cluster that is taken for the previous one, if it links here and this is not the root, else InvalidClusterNumber, on every table type |
| `LfnRemoval.RemoveLfn` | mfs/source/generic/mfs_lfn.c:613-699 | the loop, as a function of the slots before: which pieces it deletes, in any directory, and what it reports |
| `LfnRemoval.StripsPieces` | mfs/source/generic/mfs_lfn.c:613-699 | only pieces are deleted, whatever the slots hold |
| `LfnRemoval.Locate` | mfs/source/generic/mfs_search.c:255-275 | walking a directory from its beginning, the cluster handed out as the previous one is the one before the slot that is found |
| `LfnRemoval.OwnPiecesGo` | mfs/source/generic/mfs_lfn.c:636-695 | the pieces of a name go, all and nothing else, if and only if every cluster boundary among them can be gone back over; otherwise an error |
| `LfnRemoval.Reach` | mfs/source/generic/mfs_lfn.c:636-660 | those boundaries can be gone back over if and only if the pieces begin no earlier than the cluster before the entry's |
| `LfnRemoval.NameGoes` | mfs/source/generic/mfs_lfn.c:613-699 | both together, for a name as it is written |
| `LfnRemoval.OthersPieceGoes` | mfs/source/generic/mfs_lfn.c:673-686 | for an entry without a piece before it, something is deleted if and only if a piece of another file is exposed behind it, and then that piece is |
| `LfnRemoval.RemovalLeavesNoGap` | mfs/source/generic/mfs_lfn.c:673-686 | a removal leaves nothing in use behind a never used slot if nothing was |
| `LfnEnding.RemovalEnds` | mfs/source/generic/mfs_lfn.c:613-699 | in a directory where names begin with their end marks, removing the name of an entry ends without an error if and only if its pieces begin no earlier than the cluster before its own, or, without pieces, unless it is the first slot of a directory other than the root; then the pieces are gone |
| `LfnEnding.FirstClusterEnds` | mfs/source/generic/mfs_lfn.c:613-699 | begun at any slot of the first cluster, the removal ends without an error if and only if that is not the first slot of a directory other than the root |
| `LfnEnding.RemovalKeepsHeads` | mfs/source/generic/mfs_lfn.c:673-686 | removing a whole name leaves the others with their end marks |
| `LfnEnding.CreationKeepsHeads` | mfs/source/generic/mfs_dir_entry.c:219-322 | so does creating a short name, or a long one in consecutive slots |
| `DirEntry.ClearCluster` | mfs/source/generic/mfs_cluster.c:325-351 | every slot of the cluster, and no other, becomes never used |
| `DirEntry.GrowDir` | mfs/source/generic/mfs_dir_entry.c:180-212 | a full directory gets one cleared cluster behind its chain; RootDirFull for the fixed root, DiskFull if and only if no cluster is free |
| `DirEntry.FindPlace` | mfs/source/generic/mfs_dir_entry.c:104-212 | where a name goes: the first free slot, the first long enough run if there is one, the last block of free slots if not, a new cluster if no slot is free; fails if and only if no slot is free and the directory cannot grow |
| `DirEntry.WriteName` | mfs/source/generic/mfs_dir_entry.c:271-322 | all pieces of the name, each into the next free slot, into consecutive slots if nothing in use lies between, also across a cluster boundary; succeeds if and only if there is room for the pieces and the entry |
| `DirEntry.CreateEntry` | mfs/source/generic/mfs_dir_entry.c:49-378 | the errors in the order of the checks, and behind them the outcome as a function of the slots and the table before; the pieces, with the checksum of the short name, and then the entry, each in the next free slot; in the first long enough run if there is one; every other slot and cell is kept |
| `DirEntry.RunFits` | mfs/source/generic/mfs_dir_entry.c:126-176 | a directory with a long enough run of free slots takes the name: the creation succeeds |
| `DirEntry.OnlyInRun` | mfs/source/generic/mfs_dir_entry.c:180-212 | a directory that cannot grow takes a long name if and only if it has a long enough run |
| `DirEntry.CreationLeavesNoGap` | mfs/source/generic/mfs_dir_entry.c:104-322 | a creation, successful or not, leaves nothing in use behind a never used slot if nothing was |
| `DirGrowth.LeavesOne` | mfs/source/generic/mfs_dir_entry.c:180-322 | a creation takes no more clusters than it needs: it leaves a free one if and only if it would have succeeded with one of them set aside |
| `Subdirs.ShortWritten` | mfs/source/generic/mfs_dir_entry.c:219-234 | a short name takes the first free slot and nothing else changes |
| `Volumes.ExtendKeeps` | mfs/source/generic/mfs_cluster.c:209-296 | growing a chain keeps the volume in order, and no used cell leaves the chains |
| `Volumes.RewriteKeeps` | mfs/source/generic/mfs_dir_entry.c:390-432 | so does rewriting slots that keep what they own |
| `Volumes.ReserveKeeps` | mfs/source/generic/mfs_directory.c:104-116 | so does setting a free cluster aside |
| `Volumes.HandKeeps` | mfs/source/generic/mfs_rename.c:139-196 | so does handing a chain from one owner to another |
| `Volumes.DiscardKeeps` | mfs/source/generic/mfs_delete.c:99-110 | so does freeing a chain that no entry owns any more |
| `Volumes.ForgetHand` | mfs/source/generic/mfs_rename.c:176-196 | without an entry in hand that is lost, the volume is in order if and only if no live entry lies in its clusters; always, if it is a file's |
| `Runs.RunKeeps` | mfs/source/generic/mfs_cluster.c:134-315 | over every run, live entries head whole and disjoint chains, and a cell outside all chains keeps its value or is unused |
| `Runs.EveryFileIsWhole` | mfs/source/generic/mfs_cluster.c:134-315 | the same for one entry, spelled out against every other entry and the root |
| `Runs.RunLeaksNothing` | mfs/source/generic/mfs_directory.c:104-155 | no run leaks a cluster: what was free and is used now is in a chain |
| `Runs.NoOpenFileDeleted` | mfs/source/generic/mfs_delete.c:85-117 | over every run that takes no entry away from under an open file, no open file's slot is ever deleted |
| `Runs.CreationRun` | mfs/source/generic/mfs_dir_entry.c:49-378 | a creation, successful or not, is a run |
| `Runs.VacateRun` | mfs/source/generic/mfs_create.c:111-131 | giving up a file's chain is a run that frees exactly its cells |
| `Handles.GetHandle` | mfs/source/generic/mfs_handle.c:46-72 | a new handle at the end of the list, with a copy of the entry |
| `Handles.FreeHandle` | mfs/source/generic/mfs_handle.c:84-100 | the handle leaves the list, the others keep their order |
| `Handles.UnlinkedAt` | mfs/source/generic/mfs_handle.c:92-93 | unlinking removes exactly one element |
| `Handles.FindHandle` | mfs/source/generic/mfs_handle.c:112-131 | the first handle for the slot, or null if and only if there is none |
| `Files.DeleteFile` | mfs/source/generic/mfs_delete.c:49-122 | refused, with nothing changed, for each of the read-only, label and directory bits on its own, for an open file, without a path and on a read-only drive, each with its error; in all other cases the slot is deleted, exactly the file's chain is freed, and the pieces go that the removal finds; an error is reported if and only if removing the name ends with one, and no freed sector stays in the data sector buffer; a run that spares open files |
| `Files.NoDeleteBits` | mfs/source/generic/mfs_delete.c:87-90 | the mask of the check tests the read-only, label and directory bits and no other |
| `Files.EntrySlave` | mfs/source/generic/mfs_dir_entry.c:452-586 | the checks on labels, kinds and read-only entries, and otherwise a new entry, exactly if the directory takes it |
| `Files.RefusedMeans` | mfs/source/generic/mfs_dir_entry.c:452-586 | a creation is refused if and only if there is no path, drive, directory or name for it, a label is not the only one of the root, or an entry of the name is a directory, read-only, or a label where none is asked for, or the other way round; and with which error |
| `Files.UpdateEntry` | mfs/source/generic/mfs_dir_entry.c:390-432 | the first slot in use from the handle's slot on takes its copy of the entry; FileNotFound if a never used slot or the end comes first |
| `Files.UpdateHits` | mfs/source/generic/mfs_dir_entry.c:416-427 | that is the handle's own slot if it is in use; if it was deleted, the next slot in use is overwritten |
| `Files.Rewind` | mfs/source/generic/mfs_create.c:132-141 | every handle of the slot, however many, starts over; the others are kept |
| `Files.Truncate` | mfs/source/generic/mfs_create.c:111-144 | exactly the file's chain is freed, and no handle of its slot has a cursor on a freed cluster |
| `Files.WriteAfterTruncate` | mfs/source/generic/mfs_create.c:132-141 | a file open during a truncation writes next into an unused cluster if and only if its copy names one that was unused or was just freed |
| `Files.CreateFile` | mfs/source/generic/mfs_create.c:51-174 | all outcomes, each with its exact condition: refused with nothing changed, a new entry made with its long name and opened, an old one truncated and opened, or no place and every live entry as before; a run |
| `Files.CreateNewFile` | mfs/source/generic/mfs_create.c:185-257 | a new entry is opened, or the error, as a function of the state before; an existing entry is never touched |
| `Files.CloseFile` | mfs/source/generic/mfs_handle.c:84-100 | closing is a run, and the handle is gone |
| `Files.WriteCursor` | mfs/source/generic/mfs_write.c:116-160 | the cluster a write begins in: the first of the copy, a free one, or one appended; DiskFull if and only if none can be found |
| `Files.AppendCluster` | mfs/source/generic/mfs_write.c:146-154 | appending to an open file is a run that extends its chain by one cluster |
| `Files.ExtendFile` | mfs/source/generic/mfs_cluster.c:209-296 | extending a file by any number of clusters is a run that grows its chain by as many as asked for or free |
| `Files.FirstWrite` | mfs/source/generic/mfs_write.c:116-145 | an empty file that is written to takes one cluster that was free, and is nobody's until the entry is saved; DiskFull if and only if none is free or the search hint is below 2 |
| `Files.SaveEntry` | mfs/source/generic/mfs_open.c:171-178 | when the entry is saved, with the write or when the file is closed, the file owns that cluster, and nothing else changes hands |
| `Lifetimes.Lifetime` | mfs/source/generic/mfs_create.c:185-257 | a file that is created, written, closed and deleted is one run and leaves the table as it was, unless its directory had to grow; it is completed if and only if the file could be created with one of the free clusters set aside |
| `Subdirs.MakeDot` | mfs/source/generic/mfs_directory.c:118-148 | "." and ".." take the next free slot of the new directory, without growing it |
| `Subdirs.CreateSubdir` | mfs/source/generic/mfs_directory.c:49-188 | on success one cluster that was free is the chain of the new entry, which is made with its long name, and holds "." for itself, ".." for the parent, 0 if that is the root, and never used slots; refused with nothing changed without a path, drive, directory or name; on failure the cluster is free again and every live entry as before; growing the parent never takes it; nothing leaks; the error as a function of the state before |
| `Removals.RemoveSubdir` | mfs/source/generic/mfs_directory.c:199-277 | nothing changes if the path names no directory or the current one, or if a slot behind the first two of a directory without gaps is in use, and FileExists is given only if one is; if none is, the entry, its pieces and exactly the clusters of the directory are given up; they leak if and only if the drive is read-only or removing the name ends with an error; the volume stays in order if and only if nothing live was in them, so always if nothing lives in the first two slots; what happens through "." and ".." |
| `Removals.SearchTells` | mfs/source/generic/mfs_directory.c:236-239 | in a directory without gaps the search behind "." and ".." finds something if and only if one of these slots is in use |
| `Removals.OccupiedMeans` | mfs/source/generic/mfs_directory.c:232-251 | it finds something only if a slot behind the first two holds an entry or a piece, and always then if the directory has no gaps |
| `Removals.EmptyMeans` | mfs/source/generic/mfs_directory.c:236-263 | if it finds nothing, the directory holds nothing live, except perhaps in the slots of "." and ".." |
| `Removals.HollowHoldsNone` | mfs/source/generic/mfs_directory.c:232-251 | no live entry lies in the clusters of a directory without gaps of which no slot, apart from its own entry, is in use |
| `Removals.DotIsLost` | mfs/source/generic/mfs_directory.c:240-253 | removing "." fails with InvalidClusterNumber, and deletes its slot and nothing else |
| `Removals.SharedChain` | mfs/source/generic/mfs_directory.c:247-256 | freeing a chain that no entry in hand stands for keeps the volume in order if and only if no owner has a cluster of it |
| `Renames.RenameConserves` | mfs/source/generic/mfs_rename.c:134-197 | the collection of (first cluster, size, attributes) over the live entries is the same |
| `Renames.SameCollection` | mfs/source/generic/mfs_rename.c:134-197 | two volumes with the same collection have, for every live entry of one, an entry of the other with its first cluster, size and attributes |
| `Renames.Move` | mfs/source/generic/mfs_rename.c:139-175 | the entry appears in the other directory under its new name with all it had, and the old slot is deleted, if and only if the other directory takes it; then an error is reported if and only if removing the old name ends with one |
| `Renames.InPlace` | mfs/source/generic/mfs_rename.c:176-196 | the entry changes its name and maybe its slot; it is lost, and it alone, as the state before tells; where names begin with their end marks, if and only if it lies in the first slot of a cluster of a directory other than the root, or a long new name finds no place then |
| `Renames.RemovedInPlace` | mfs/source/generic/mfs_rename.c:176-189 | when removing the old name fails in a rename in place, and which pieces go |
| `Renames.WrongPiecesGo` | mfs/source/generic/mfs_rename.c:176-189 | a name that ends before the index of the entry in the first cluster is deleted, whosever it is, and everything from there on is kept, the entry's own pieces beyond the first cluster included |
| `Renames.RenameFile` | mfs/source/generic/mfs_rename.c:49-227 | nothing changes for a label, for a read-only file that is to leave its directory, for a name that is taken or begins with a dot, and where there is no path, drive, directory or file; a rename in place is never denied; in all other cases the outcome as a function of the state before; where names begin with their end marks, an error if and only if the entry of a rename in place lies in the first slot of a cluster of a directory other than the root, the old pieces of a move are out of reach, or the new name finds no place; the new entry is made with its long name and takes over what the old one had; the files are conserved unless a rename in place ends so; a renamed file keeps its chain; open files stay on live slots if and only if the old slot is not open or is used again; after the loss of a file the volume is in order |
| `Renames.LostAtBoundary` | mfs/source/generic/mfs_rename.c:176-189 | a rename in place always loses an entry in the first slot of a cluster of a directory other than the root |
| `Renames.OpensAfterRename` | mfs/source/generic/mfs_rename.c:144-169 | after a rename the open files are on live slots if and only if the old slot is not open or is the new one |
| `Renames.LostFile` | mfs/source/generic/mfs_rename.c:176-196 | such a failure loses one file |
| `Trees.MoveKeepsReach` | mfs/source/generic/mfs_rename.c:134-175 | on trees of entries, a move keeps all in reach of the root if and only if the target is not the moved entry and does not lie below it |
| `Trees.MoveInTree` | mfs/source/generic/mfs_rename.c:134-175 | the same for the operation on a volume |
| `Sntp.Add96` | apps/sntp_test/sntp.c:616-649 | addition modulo 2^96, for all inputs |
| `Sntp.Sub96` | apps/sntp_test/sntp.c:660-693 | subtraction modulo 2^96, for all inputs |
| `Sntp.ShiftRight96` | apps/sntp_test/sntp.c:704-719 | exact halving, rounded down |
| `Sntp.OrIsSum` | apps/sntp_test/sntp.c:704-719 | the bitwise or of the source joins halves that share no bit, so it is their sum |
| `Sntp.LiftedOffset` | apps/sntp_test/sntp.c:403-426 | the words with their era bit give the offset of the true times, up to whole eras |
| `Sntp.ClockAfterSet` | apps/sntp_test/sntp.c:428-438 | the unsigned shift of a negative offset is right modulo one era |
| `Sntp.ToDate` | apps/sntp_test/sntp.c:439-444 | seconds from the Unix epoch and milliseconds, which exceed 999 exactly for the last fractions |
| `Sntp.SetTime` | apps/sntp_test/sntp.c:391-446 | the clock moves by floor(((T2 - T1) + (T3 - T4)) / 2) modulo 2^64, also across an era and backwards |
| `Sntp.SymmetricDelay` | apps/sntp_test/sntp.c:391-446 | if both ways take the same time, the new clock is the server's time, however far ahead or behind the client was |
| `NorFlash.ProgramConcat` | nftl/source/spiflash_ll.c:317-377 | programming in chunks is programming the whole |
| `NorFlash.PageIsLinear` | nftl/source/spiflash_ll.c:317-377 | inside one page the wrapping command is linear |
| `NorFlash.ProgramCell` | nftl/source/spiflash_ll.c:317-377 | a programmed cell is the bitwise and of old and new, every other cell is kept |
| `NorFlash.ReadBack` | nftl/source/spiflash_ll.c:281-377 | data reads back as written if and only if no bit had to be set |
| `NorFlash.AddrToBuffer` | nftl/source/spiflash_ll.c:37-48 | the address bytes, most significant first, and the cell that they select |
| `NorFlash.EraseUnit` | nftl/source/spiflash_ll.c:209-277 | the block or sector that holds the address is erased |
| `NorFlash.ReadData` | nftl/source/spiflash_ll.c:281-315 | the bytes from the address on |
| `NorFlash.WriteData` | nftl/source/spiflash_ll.c:317-377 | for every address and size, the same as programming the bytes one by one: chunks tile the range and cross no page |
| `NorFlash.EraseWriteRead` | nftl/source/spiflash_api.c:224-246 | erase, write inside, read back: the data, with everything outside kept |
| `NorFlash.EraseWriteReadBlock` | nftl/source/spiflash_api.c:224-358 | the same through the driver, for a device that starts some blocks into the part |
| `Witnesses.SearchFromZero` | mfs/source/generic/mfs_cluster.c:76-123 | searching from cluster 0 finds nothing while cluster 2 is free |
| `Witnesses.ReleaseOfLostChain` | mfs/source/generic/mfs_cluster.c:151-198 | a chain that leads to cluster 1 is not released, and NoError is reported |
| `Witnesses.RefusedFlush` | mfs/source/generic/mfs_data_sector.c:131-152 | a refused write is lost with NoError when the buffer moves on |
| `Witnesses.StaleBuffer` | mfs/source/generic/mfs_write.c:280-318 | a sector written past the buffer still reads as before |
| `Witnesses.SeventeenEntries` | mfs/source/generic/mfs_dir_entry.c:616-640 | seventeen root entries are walked as thirty-two |
| `Witnesses.SplitName` | mfs/source/generic/mfs_dir_entry.c:126-322 | a name whose pieces are not consecutive |
| `Witnesses.WriteToFreed` | mfs/source/generic/mfs_create.c:111-144 | a second handle of a truncated file is left on a free cluster |
| `Witnesses.LostByRename` | mfs/source/generic/mfs_rename.c:176-196 | a rename in place that loses a file |
| `Witnesses.OpenWhileMoved` | mfs/source/generic/mfs_rename.c:144-169 | a file that is open on a deleted slot after a move |
| `Witnesses.RemovedThroughDotDot` | mfs/source/generic/mfs_directory.c:222-256 | a directory removed through ".." while its entry keeps its cluster |
| `Witnesses.LeakedByRemoval` | mfs/source/generic/mfs_directory.c:240-256 | a removed directory whose cluster stays in use and is named by no entry |
| `Witnesses.FileLostWithDirectory` | mfs/source/generic/mfs_directory.c:235-256 | a removed directory that still held a live file |
| `Witnesses.MovedIntoItself` | mfs/source/generic/mfs_rename.c:134-175 | a directory moved into itself, out of reach |
| `NameWitnesses.NameOutOfReach` | mfs/source/generic/mfs_lfn.c:613-699 | a name of seventeen pieces that is neither read nor removed |
| `NameWitnesses.AnothersPieceGoes` | mfs/source/generic/mfs_lfn.c:673-686 | a piece of another file deleted with an entry that has none |
| `NameWitnesses.RenameTakesPiece` | mfs/source/generic/mfs_rename.c:176-189 | a piece of another file deleted by a rename in place |
| `Witnesses.LastFraction` | apps/sntp_test/sntp.c:439-444 | a clock whose millisecond field is 1000 |

## Left out

- DirSearch.FindRun: in a fixed root directory without a long enough run whose last slot is free, the source steps past the root's end and goes on with cluster number 1; that case is excluded.
- DirEntry.FindPlace: the same case of a fixed root directory is excluded.
- DirEntry.CreateEntry: the same case of a fixed root directory is excluded.
- Files.EntrySlave: the same case is excluded, as it calls the creation.
- Files.CreateFile: the same case is excluded.
- Files.CreateNewFile: the same case is excluded.
- Lifetimes.Lifetime: the same case is excluded.
- Subdirs.CreateSubdir: the same case is excluded.
- Renames.Move: the same case is excluded.
- Renames.InPlace: the same case is excluded.
- Renames.RenameFile: the same case is excluded.
- Trees.MoveInTree: the same case is excluded.
- LfnEnding.RemovalEnds: a long name that was written to slots that do not follow each other leaves pieces without an end mark before them; what removing an entry does then is said by the loop alone (`LfnRemoval.RemoveLfn`).
- DirEntry.CreationLeavesNoGap: proved for one creation, like `LfnRemoval.RemovalLeavesNoGap` for one removal; the steps of a run do not say which directory they write to.
- DirEntry.CreateEntry: when the disk fills up between two pieces of a long name, the source writes through a null pointer; the model returns the error at that point.
- DirEntry.CreateEntry: the generated short name is a parameter; its uniqueness is not claimed, since the retry resets the slot index but not the cluster. Dates and times are not modelled.
- DirSlots.FindSlot: the comparison of a slot with a given name, wildcards and path parsing are parameters of the operations (`lookup`, `Target`), not modelled.
- DirSlots.Increment: the power-of-two masks of the source are written as remainders and quotients.
- LfnReading.GetLongName: a name without pieces before its entry, or with pieces of another one, gives whatever they hold.
- DataSector.Run: once a direct access has met the buffered sector, the run is not followed further; the two direct accesses say what they do then.
- Files.EntrySlave: memory for the path buffers never runs out, and volume labels are checked by a parameter.
- Files.WriteCursor: the rest of MFS_Write (data transfer, positions, the zero fill) is not modelled, except for its accesses to sectors.
- Files.FirstWrite: what other operations do between the write and the saving of the entry is not followed.
- Renames.InPlace: after a failed creation the source writes through a null pointer; the model returns the error.
- Renames.Move: the ".." entry of a directory that is moved keeps pointing to the old parent, as in the source.
- Cluster.ReleaseChain: errors of the device while cells are relinked are excluded; the data sector cache has them.
- FatCodec.PutCell: the sector window, its write-back and the mirrored tables are not modelled; the other operations use one array of cells, with the reserved bits zero.
- Sntp.SetTime: packets, reading the clock and converting it to ticks are not modelled.
- NorFlash.WriteData: bus transfers never fail, and chip erase and protection are not modelled.
- Removals.RemoveSubdir: the directory that the entry names is a whole chain, the fixed root, or cluster 0 of a drive without one; a ".." that points to a cluster given to something else since is excluded.
- MFS_Change_current_dir, searches with wildcards, partitions, formatting, drive opening and locking.
- The SPI, socket, shell, USB, SD card and web server code of the repository, and its data tables.
