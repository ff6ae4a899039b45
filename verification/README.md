# A verified model of the storage, memory and task code

This project models, in Dafny 4.11, the parts of a small operating system whose correctness is hard to see by
reading one function: its NTFS driver, its GPT partition code, its two heap allocators, its frame allocator, its
task executor with the keyboard and timer interrupts, and the FAT32 reader of its boot loader. Each is modelled with
the program's own branches, error conditions and constants, and the properties its design relies on are proved for
all inputs, all runs or all interleavings. `dafny verify dfyconfig.toml` checks everything.

| modules | what they model |
|---|---|
| `Wrappers`, `Arithmetic`, `Bytes`, `Text`, `BlockStorage` | results, division, little-endian numbers and buffer splices, stored names, a byte-addressed block device |
| `Crc32`, `CrcPolynomial`, `GptFormat`, `GptRead`, `GptWrite`, `GptManager`, `GptGuid`, `GptTheorems`, `GptRewrite` | the partition table of section 5.3 of the UEFI Specification 2.10 and its checksum (section 8 of RFC 1952): codec, reader with fallback, writer with its order of writes, formatting, and what a table survives, on an empty disk and over an older table |
| `NtfsTypes`, `NtfsFixups`, `NtfsClearance`, `NtfsSectors`, `NtfsRuns`, `NtfsAttributes`, `NtfsParse` | names, sector fixups, what they do to every byte and exactly when they round-trip, data runs, and decoding a file record with whatever attributes it has |
| `NtfsIndex`, `NtfsInsert`, `NtfsDirectory`, `NtfsExternal` | the packed directory index: walking it, splicing an entry in, the record around it, and the block of an external index |
| `NtfsBuild`, `NtfsBuiltRecord`, `NtfsLayout` | laying out a new record, what is read back from it, and its bytes |
| `NtfsVolume`, `NtfsDriver` | the driver's operations as functions on a volume, and the driver object that implements them |
| `NtfsCreate`, `NtfsOverflow`, `NtfsOutcome` | what a successful creation does, once and in sequence; what becomes of names that go to the external index; exactly when a creation succeeds and what a failed one leaves |
| `NtfsExtents`, `NtfsRewrite`, `NtfsLifecycle` | where contents are read from, overwriting, and a file from its creation through an overwrite to a read |
| `NtfsPaths`, `NtfsOpen`, `NtfsBoot` | opening by path before and after a creation, mounting |
| `NtfsSmall`, `NtfsWitness`, `NtfsStream` | small volumes on which all of this happens |
| `HeapTypes`, `LinkedListAllocator`, `LinkedListRuns`, `FixedSizeBlock` | the two allocators as linked structures, and all their runs |
| `FrameAllocator`, `Executor`, `Fat32`, `Fat32Root` | physical frames, the task and interrupt protocol, the cluster-chain reader and the directory lookup |

How the code is represented:

* No proof relies on automatic induction: every lemma it would apply to carries `{:induction false}`.
* What reaches or leaves a disk is also stated by its bytes, at the offsets and in the numbers of the format, apart from
  the functions that compute it.
* Code that changes things in place is a method or class over arrays, maps and fields, proved against a function of
  the old state; what the source promises is then proved about that function.
* The device trait names its offset `lba`, but the NTFS and GPT code pass byte offsets, so the device is addressed by
  bytes; the one place that divides an offset by 512 is modelled as it is. Which accesses fail is an arbitrary but
  fixed property of the device, and a write is whole or not at all.
* `Panicked` stands for a failed index, assertion or checked operation: the development profile enables overflow checks.
* Identifiers that the program draws from a counter, and answers of the fallback heap, are parameters.
* Executor interrupts are transitions between any two atomic operations while interrupts are enabled; the waker slots
  are atomic cells.

Where the program does not do what its comments promise, the code is followed and the difference is a theorem:

* `write_file` overwrites the first data attribute even if it is a named stream or one of several
  (`NtfsRewrite.RewriteCorrectIff`, `NtfsStream.StreamIsHit`).
* Non-resident contents are read from a 512th of their offset (`NtfsExtents.ExtentReadIff`), and the size of a file is
  that of its last data run alone (`NtfsExtents.SizeIsReadIff`).
* A name that goes to the external index of a directory is reported as created and never found again
  (`NtfsOverflow.FullDirectoryLosesNames`, `NtfsWitness.EveryNameIsLost`).
* A directory the driver builds can never take an entry (`NtfsCreate.FreshDirectoryRejects`), and a creation that fails
  at its directory entry leaves an unnamed record behind (`NtfsOutcome.FailedCreation`, `NtfsOutcome.OrphanIff`,
  `NtfsWitness.FullRootLeavesOrphans`).
* A file may be created under a name that no path opens (`NtfsOpen.NewPathOpensIff`, `NtfsWitness.DotDotIsCreated`), and
  a name outside non-NUL ASCII is not read back (`NtfsTypes.ReadBackExact`).
* Reading a record and writing it back loses bytes where a sector tail touches the fixup array other than on its own
  slot, a byte below it, or, for the last one, a byte above it (`NtfsClearance.RoundTripsIff`); and a record can be
  readable but not writable (`NtfsFixups.WritableIff`).
* Eight-byte negative data-run deltas stop the program (`NtfsRuns.WideNegativeFailsIff`).
* The boot sector the partition manager writes makes records one byte long (`NtfsBoot.CreatedVolumeIsUnreadable`).
* The linked-list allocator never merges and never recovers padding (`LinkedListRuns.TooLargeForever`,
  `LinkedListRuns.EmptiedHeapStaysSplit`, `LinkedListRuns.PaddingOnlyGrows`), and size classes never shrink
  (`FixedSizeBlock.ClassMemoryIsPeak`).
* Two sleeping tasks lose one of them (`Executor.TwoSleepersLoseTheFirst`), and keys that arrive while the shell
  stores its waker fill the task queue (`Executor.NoPanicIff`).
* While a table is rewritten the disk reads as neither table, although a whole backup of the old one is left
  (`GptRewrite.RewriteCrash`, `GptRewrite.BackupIsIntact`).
* Regions that share a page give its frame twice (`FrameAllocator.NoFrameTwiceIff`), and a region that starts inside a
  page above 32 MB gives a frame that starts before it (`FrameAllocator.FramesUsableIff`).
* The boot loader's directory lookup never returns on a looping chain without the name
  (`Fat32Root.FindRootReturnsIff`, `Fat32Root.LoopingDisk`).

A well-formed directory (`NtfsDirectory.GoodDirectory`, `NtfsIndex.GoodIndex`) is one whose attributes can be walked up
to exactly one resident index root, in which entries follow each other up to a 16-byte end entry and the allocated
size lies inside the value. Records of good directories and files have fixups whose array, signature and header fields
keep clear of the sector tails, or none (`NtfsFixups.FixupsSafe`). A new record is laid out so exactly in sectors of 10
to 24, 28 to 48, or at least 56 bytes (`NtfsBuiltRecord.SectorFits`), which is what the theorems about creations ask of
a volume.

## Model

| member | source | states |
|---|---|---|
| `NtfsCreate.CreateFileCorrect` | lib/vfs/src/fs/ntfs/write.rs:50-100 | A creation that reports success in a directory with a well-formed index root that takes the name in place (it has room, or the directory has no external index) has happened: the slot was free, only it and the parent's record changed, the parent lists the old names and then the new one, and the new record reads back the name and data. For every name and every data, in sectors whose tails keep clear of a new record's header (`SectorFits`). |
| `NtfsCreate.CreateAllCorrect` | lib/vfs/src/fs/ntfs/write.rs:50-100 | Over any sequence of successful creations in a directory without an external index: every record keeps the name and data it was created with, every non-empty ASCII name leads to its own record, no two share a record, and everything present before is still present. |
| `NtfsOverflow.FullDirectoryLosesNames` | lib/vfs/src/fs/ntfs/index.rs:28-35 | The other case: in a directory whose own index is full and which has an external index, a creation that reports success leaves a complete record that nothing finds or lists, because the readers look at the index root alone. The block must overlap neither record. |
| `NtfsWitness.EveryNameIsLost` | lib/vfs/src/fs/ntfs/index.rs:28-35 | On a concrete volume with such a directory every creation that is in order is reported as a success, and its name is lost. |
| `NtfsOutcome.CreateSucceedsIff` | lib/vfs/src/fs/ntfs/write.rs:50-100 | Exactly when a creation in a good directory succeeds, in terms of the volume before it: the name is new and has at most 255 UTF-8 bytes, a slot is free, the record and two sectors fit, the slot can be written, and the parent takes the name: its index, used size, fixups and slot do, or, for a name that does not go in place, the block of its external index does. That block must not overlap the new slot. |
| `NtfsOutcome.FailedCreation` | lib/vfs/src/fs/ntfs/write.rs:50-100 | For every parent: a failed creation leaves the volume unchanged if and only if the new record was not stored; otherwise that record stays on disk, complete, and no byte outside its slot changes. A block of an external index must not overlap that slot. |
| `NtfsOutcome.OrphanIff` | lib/vfs/src/fs/ntfs/write.rs:86-97 | In a good directory a creation fails and leaves its record behind if and only if everything before it is in order but the parent, in place or in its external index, does not take the name. |
| `NtfsOutcome.StoredThenListed` | lib/vfs/src/fs/ntfs/write.rs:93-97 | Once the new record is stored, the creation succeeds if and only if the parent takes the name: in place, with room in the index and the 32-bit used size and a record that can be refixed and written, or else in a block that can be read, edited and written. |
| `NtfsOutcome.RefixedIff` | lib/vfs/src/fs/ntfs/attr.rs:311-337 | On a record with safe fixups, saving succeeds if and only if the sectors its array counts lie inside it. |
| `NtfsOutcome.BuildSucceedsIff` | lib/vfs/src/fs/ntfs/write.rs:124-174 | A record is built if and only if its name has at most 255 units, its data is short enough to be resident, and its attributes fit with the end mark. |
| `NtfsWitness.RootIsGood` | lib/vfs/src/fs/ntfs/write.rs:50-100 | A volume with a good, empty root directory exists, with 512-byte sectors, 1024-byte records, a free slot and any room in the index up to 800 bytes. |
| `NtfsWitness.EveryNameIsCreated` | lib/vfs/src/fs/ntfs/write.rs:50-100 | In such a root every name of at most 255 UTF-8 bytes whose record fits is created, whatever its characters. |
| `NtfsWitness.FullRootLeavesOrphans` | lib/vfs/src/fs/ntfs/write.rs:86-97 | In such a root without room every creation that is otherwise in order fails and leaves its record behind. |
| `NtfsCreate.FindAfterCreate` | lib/vfs/src/fs/ntfs/index.rs:408-451 | Looking up any name after a creation: earlier answers stay, otherwise the new name answers (letter case aside) with the new record number, otherwise not found. |
| `NtfsCreate.CreateThenUse` | lib/vfs/src/fs/ntfs/write.rs:50-100 | For a non-NUL ASCII name: it is found, it is listed last behind the old listing, the record's name is the name, and a file reads back its data. |
| `NtfsCreate.PresentStays` | lib/vfs/src/fs/ntfs/write.rs:50-100 | A further creation disturbs no file that is already present. |
| `NtfsCreate.FreshDirectoryRejects` | lib/vfs/src/fs/ntfs/write.rs:299-354 | Creating anything in a directory that the driver itself built never succeeds, because its index is allocated no larger than it is. |
| `NtfsOpen.PathsStay` | lib/vfs/src/fs/ntfs/mod.rs:46-70 | Every path that opened before a creation opens the same file after it. |
| `NtfsOpen.NewPathOpens` | lib/vfs/src/fs/ntfs/mod.rs:46-70 | After a creation in the directory a path leads to, that path extended by the name opens the new record, for a non-empty name of non-NUL ASCII characters without a slash that is not `..`. |
| `NtfsOpen.NewPathOpensIff` | lib/vfs/src/fs/ntfs/mod.rs:46-70 | For every name without a slash: the extended path opens the new record if and only if the name consists of non-NUL ASCII characters, is not empty and is not `..`. |
| `NtfsOpen.DotDotNeverOpens` | lib/vfs/src/fs/ntfs/mod.rs:54-57 | No path ending in the component `..` opens, on any volume. |
| `NtfsWitness.DotDotIsCreated` | lib/vfs/src/fs/ntfs/write.rs:69-85 | The driver does create a file called `..`, and no path that ends in it opens afterwards. |
| `NtfsOpen.EnterStays` | lib/vfs/src/fs/ntfs/mod.rs:55-67 | One step of a path walk leads to the same record before and after a creation. |
| `NtfsOpen.ParentIsDirectory` | lib/vfs/src/fs/ntfs/attr.rs:192-201 | A record with a well-formed resident index root is reported as a directory. |
| `NtfsRewrite.RewriteReplaces` | lib/vfs/src/fs/ntfs/write.rs:17-47 | A successful overwrite of a file whose first data attribute is unnamed: the first data run is the new data, a later read gives it followed by what the later runs lead to, all other metadata is unchanged, and no byte outside the record's slot is touched. |
| `NtfsRewrite.RewriteHitsStream` | lib/vfs/src/fs/ntfs/write.rs:36-38 | If the first data attribute is a named stream, a successful overwrite puts the data into that stream, the file keeps its runs, and it reads as before unless they are read from its own record on disk. |
| `NtfsRewrite.RewriteCorrectIff` | lib/vfs/src/fs/ntfs/write.rs:17-47 | After a successful overwrite of a file whose first data attribute is resident and whose runs are not read from its own record, the file reads as the new data if and only if that attribute is unnamed and the later ones, resident or not, contribute no bytes, or the file held that data already. |
| `NtfsLifecycle.RewriteSucceedsIff` | lib/vfs/src/fs/ntfs/write.rs:17-47 | An overwrite succeeds if and only if the data is as long as both the first data run and the first data attribute, and the record can be refixed and its slot written. |
| `NtfsLifecycle.CreateThenRewrite` | lib/vfs/src/fs/ntfs/write.rs:17-100 | A file that was created can be overwritten by exactly the contents of the same length; they are then what is read, and every name still leads where it did. |
| `NtfsLifecycle.CreatedIsFile` | lib/vfs/src/fs/ntfs/write.rs:124-174 | What a creation leaves is a file whose first data attribute is unnamed, resident and the contents. |
| `NtfsStream.StreamIsHit` | lib/vfs/src/fs/ntfs/write.rs:36-38 | A concrete file on which every overwrite with new contents reports success, changes the stream, and leaves what is read as it was. |
| `NtfsRewrite.RewriteOfNothing` | lib/vfs/src/fs/ntfs/write.rs:36-46 | If the value-length field of the first data attribute is zero, as in a non-resident one that starts at cluster 0, only an empty overwrite succeeds, and the metadata and contents stay. |
| `NtfsRewrite.RewriteEffect` | lib/vfs/src/fs/ntfs/write.rs:17-47 | What any successful overwrite does: the lengths agreed, one slot changed, and the record is read back with the first data attribute's value replaced. |
| `NtfsRewrite.StatRewritten` | lib/vfs/src/fs/ntfs/attr.rs:146-258 | Metadata of a record whose first data value was replaced: the same, with the first run changed, or with the first stream changed if the attribute is named. |
| `NtfsExtents.ExtentReadIff` | lib/vfs/src/fs/ntfs/runs.rs:115-125 | On a device that begins with the file system, the bytes of an extent's clusters are what is read, whatever is on the device, if and only if the extent starts at offset 0 or is empty. |
| `NtfsExtents.OneExtent` | lib/vfs/src/fs/ntfs/runs.rs:100-131 | The bytes of one extent are those from a 512th of its offset on. |
| `NtfsExtents.ContentsApart` | lib/vfs/src/fs/ntfs/runs.rs:100-131 | Contents that are not read from a record's slot do not change when that slot is written. |
| `NtfsExtents.SizeIsReadIff` | lib/vfs/src/fs/ntfs/attr.rs:222-250 | The size in the metadata is the number of bytes that reading the file yields if and only if all its data runs but the last are empty. |
| `NtfsExtents.RunsSizeIs` | lib/vfs/src/fs/ntfs/attr.rs:237 | The size of a non-resident run is the number of its clusters times the size of one. |
| `NtfsIndex.InsertAppends` | lib/vfs/src/fs/ntfs/index.rs:106-137 | Splicing an entry into a well-formed index with room refines list append: the listing grows by the new entry at its end, and the index is well-formed again with the same allocated size. |
| `NtfsIndex.WalkInserted` | lib/vfs/src/fs/ntfs/index.rs:381-402 | Walking the spliced buffer gives the old entries, then the new one, and stops at the moved end entry. |
| `NtfsIndex.LookupAppend` | lib/vfs/src/fs/ntfs/index.rs:424-450 | In an appended listing every earlier lookup gives the same answer. |
| `NtfsIndex.ListDirectory` | lib/vfs/src/fs/ntfs/index.rs:359-405 | The listing loop returns the names of exactly the entries the index denotes, on every byte string. |
| `NtfsIndex.IsEndIff` | lib/vfs/src/fs/ntfs/index.rs:384-386 | The end entry is the one with bit 1 of byte 12. |
| `NtfsIndex.FindInDirectory` | lib/vfs/src/fs/ntfs/index.rs:408-451 | The search loop gives the first entry with the name, letter case aside, or not found; if the first eight bytes of that entry are a record number in six bytes and any sequence number in two, the answer is the record number. |
| `NtfsIndex.LookupGives` | lib/vfs/src/fs/ntfs/index.rs:424-442 | For every listing whose first match has reference n + q * 2^48 with n below 2^48, the answer is n. |
| `NtfsIndex.FindGives` | lib/vfs/src/fs/ntfs/index.rs:408-451 | The same from the bytes of the index: following the entry lengths to the first entry with the name. |
| `NtfsIndex.LookupFailsIff` | lib/vfs/src/fs/ntfs/index.rs:424-450 | Not found, and no other error, exactly if no entry has the name, letter case aside. |
| `NtfsInsert.AddToResidentIndex` | lib/vfs/src/fs/ntfs/index.rs:42-142 | The in-place splice leaves exactly the specified bytes in the record, or fails with the specified error. |
| `NtfsInsert.LocateIndex` | lib/vfs/src/fs/ntfs/index.rs:49-87 | Locating the index root checks header and end in the program's order, with its errors. |
| `NtfsInsert.BuildEntry` | lib/vfs/src/fs/ntfs/index.rs:109-133 | Filling the zeroed entry field by field gives the specified entry bytes. |
| `NtfsLayout.EntryIs` | lib/vfs/src/fs/ntfs/index.rs:109-133 | Every byte of a new directory entry and its key. |
| `NtfsInsert.BuildKey` | lib/vfs/src/fs/ntfs/index.rs:121-133 | Filling the key field by field gives the specified key bytes. |
| `NtfsInsert.KeyRoundTrip` | lib/vfs/src/fs/ntfs/attr.rs:384-405 | Parsing a built key gives back its name as the driver shows it, and its parent. |
| `NtfsInsert.NewEntryGood` | lib/vfs/src/fs/ntfs/index.rs:109-133 | A new entry for at most 255 units is well-formed and reads back as the child's number and name, or as nothing if the name is empty. |
| `NtfsExternal.EditBlock` | lib/vfs/src/fs/ntfs/index.rs:216-312 | The block of an external index, edited in its buffer between undoing and redoing its fixups, is the specified block or error. |
| `NtfsExternal.InsertInBlock` | lib/vfs/src/fs/ntfs/index.rs:245-303 | The splice in the block, with its 16-bit header fields, is the specified one or fails as specified. |
| `NtfsExternal.LocateBlock` | lib/vfs/src/fs/ntfs/index.rs:162-214 | The checks that lead to the block, and their errors, in the program's order. |
| `NtfsExternal.BlockAtIff` | lib/vfs/src/fs/ntfs/index.rs:211-220 | A block is accepted exactly when its cluster starts no further than the partition is long. |
| `NtfsSectors.BlockIs` | lib/vfs/src/fs/ntfs/index.rs:216-312 | What adding an entry makes of a block of 512-byte sectors: its fixups undone, the entry inserted, the fixups done again with the same sequence number. |
| `NtfsOverflow.ListingEffect` | lib/vfs/src/fs/ntfs/index.rs:17-39 | Adding an entry to any directory: a failed attempt changes nothing, a successful one changes nothing but the parent's record or the one block it names. |
| `NtfsDirectory.AddEntryGood` | lib/vfs/src/fs/ntfs/index.rs:82-104 | In a good directory adding an entry fails exactly when the allocated size is exceeded or the 32-bit used size overflows; otherwise it edits only the index value and the used size. |
| `NtfsDirectory.AddedIsGood` | lib/vfs/src/fs/ntfs/index.rs:106-142 | The edited record is again a good directory with the old names and then the new one, and no byte between header and attributes moves. |
| `NtfsDirectory.LocateGood` | lib/vfs/src/fs/ntfs/index.rs:49-87 | In a good directory the index root is located where the attribute walk has it. |
| `NtfsDirectory.StatEdited` | lib/vfs/src/fs/ntfs/attr.rs:192-201 | Replacing the value of the index root changes the metadata in that value only, and no later attribute. |
| `NtfsDirectory.FindsIndexRoot` | lib/vfs/src/fs/ntfs/index.rs:318-356 | The byte-offset search finds the same index root as the attribute walk. |
| `NtfsDirectory.FindsSame` | lib/vfs/src/fs/ntfs/index.rs:318-356 | Editing the index root does not change where an attribute of another type is found, so that a directory stays without an external index. |
| `NtfsDirectory.StaysDirectory` | lib/vfs/src/fs/ntfs/attr.rs:29-80 | An attribute list keeps its shape when the index value is replaced by a well-formed one. |
| `NtfsBuiltRecord.BuildRoundTrip` | lib/vfs/src/fs/ntfs/write.rs:124-174 | For every record number, parent, name and data that fits, in sectors clear of the header: fixups can be added exactly when two sectors fit, and removing them and parsing gives back the name, size, contents and kind - the name exactly when it is non-NUL ASCII. |
| `NtfsBuiltRecord.BuiltFixups` | lib/vfs/src/fs/ntfs/write.rs:136-152 | A new record's signature, fixup fields and fixup array are clear of its sector tails exactly for sectors of 10 to 24, 28 to 48, or at least 56 bytes; fixups can then be made if and only if two sectors fit into the record. |
| `NtfsBuiltRecord.BuiltParts` | lib/vfs/src/fs/ntfs/write.rs:124-174 | Whatever is built fits the record with its end marker, has a name of at most 255 units and resident data, carries the signature and the fixup description, and holds its attributes followed by the end marker and zeros. |
| `NtfsBuiltRecord.StatOfBuilt` | lib/vfs/src/fs/ntfs/attr.rs:146-258 | Any record equal to a built one outside its fixup slots has the built metadata. |
| `NtfsBuiltRecord.StatOfAttributes` | lib/vfs/src/fs/ntfs/attr.rs:146-258 | Parsing the attribute list of a built record gives its metadata, whatever padding follows. |
| `NtfsBuiltRecord.FreshIndexEmpty` | lib/vfs/src/fs/ntfs/write.rs:335-351 | The index of a new directory lists nothing. |
| `NtfsBuiltRecord.FreshDirectoryFull` | lib/vfs/src/fs/ntfs/write.rs:335-343 | No entry can be added to a freshly built directory. |
| `NtfsBuild.BuildMftRecord` | lib/vfs/src/fs/ntfs/write.rs:124-174 | The record writer, attribute by attribute into a zeroed buffer, produces exactly the specified record or the specified error. |
| `NtfsLayout.RecordIs` | lib/vfs/src/fs/ntfs/write.rs:124-354 | Every byte of a new record: header, standard information, name, and the contents of a file or the empty index of a directory, end mark, and zeros. |
| `NtfsBuild.BuildAttributes` | lib/vfs/src/fs/ntfs/write.rs:154-173 | Writing the attributes, the unchecked end marker and the used size in place gives the specified record. |
| `NtfsBuild.WriteRecordHead` | lib/vfs/src/fs/ntfs/write.rs:135-152 | The 56 header bytes, field by field. |
| `NtfsBuild.WriteAttr` | lib/vfs/src/fs/ntfs/write.rs:267-296 | Writing one resident attribute changes exactly its padded stretch, or reports no space and changes nothing. |
| `NtfsBuild.WriteFileName` | lib/vfs/src/fs/ntfs/write.rs:217-264 | The file-name attribute: too long a name and too little space are refused without a change. |
| `NtfsFixups.ApplyFixupsInPlace` | lib/vfs/src/fs/ntfs/attr.rs:263-302 | The restoring loop leaves exactly the specified record or error, in place. |
| `NtfsFixups.ReapplyFixupsInPlace` | lib/vfs/src/fs/ntfs/attr.rs:311-337 | The saving loop leaves exactly the specified record or error, in place. |
| `NtfsSectors.ApplyIs` | lib/vfs/src/fs/ntfs/attr.rs:263-302 | On a record whose fixup array lies in front of its first tail: undoing the fixups succeeds exactly if every sector ends with the sequence number; then every sector ends with the two bytes kept for it, and no other byte changes. |
| `NtfsSectors.ReapplyIs` | lib/vfs/src/fs/ntfs/attr.rs:311-337 | On such a record: redoing them succeeds exactly if the sectors lie inside it; then every sector ends with the sequence number, the array keeps what was there, and no other byte changes. |
| `NtfsClearance.ApplyThenReapply` | lib/vfs/src/fs/ntfs/attr.rs:263-337 | Writing back what was read restores the disk image byte for byte, on every record without fixups and on every record whose tails keep clear of header bytes 4 to 8 and do no harm to the fixup array: a tail may touch the array only on its own slot, a byte below it, or, the last one, a byte above it. |
| `NtfsClearance.RoundTripsIff` | lib/vfs/src/fs/ntfs/attr.rs:263-337 | That is exact: for every array shorter than a sector, with all its sectors inside the record, every readable record with that array round-trips if and only if its tails are clear of it in that sense. |
| `NtfsClearance.ProtectedIsClear` | lib/vfs/src/fs/ntfs/attr.rs:263-337 | An array that no tail touches at all, as in the records of good directories and files, is clear of its tails in that sense. |
| `NtfsClearance.OverlapLosesBytes` | lib/vfs/src/fs/ntfs/attr.rs:282-299 | In 512-byte sectors and 1024-byte records, an array at 510 makes some record change when it is read and written back; one at 508, whose tail is its own slot, makes none change. |
| `NtfsFixups.ReapplyThenApply` | lib/vfs/src/fs/ntfs/attr.rs:263-337 | On a record whose fixup array keeps clear of its tails, reading back what was written restores everything except the saved slots. |
| `NtfsFixups.WritableIff` | lib/vfs/src/fs/ntfs/attr.rs:263-337 | A record that is read can be written back if and only if it has no fixup array or the array's first entry lies inside it; in sectors of at least ten bytes, or with header bytes 4 to 8 clear of the tails. |
| `NtfsFixups.ReadableButNotWritable` | lib/vfs/src/fs/ntfs/attr.rs:267-278 | There is a record of 1024 bytes that is read and cannot be written back, whatever the sectors. |
| `NtfsRuns.ParseRuns` | lib/vfs/src/fs/ntfs/runs.rs:12-97 | The decoder loop terminates on every input and returns the specified runs or error. |
| `NtfsRuns.ParseOneRun` | lib/vfs/src/fs/ntfs/runs.rs:43-93 | One turn of the decoder: header checks, width, sign extension, checked addition. |
| `NtfsRuns.GatherBytes` | lib/vfs/src/fs/ntfs/runs.rs:63-73 | Or-ing shifted bytes into an accumulator computes the little-endian value. |
| `NtfsRuns.OrShifted` | lib/vfs/src/fs/ntfs/runs.rs:65-73 | Or-ing a number shifted past every bit of the accumulator adds it. |
| `NtfsRuns.DecodeEncoded` | lib/vfs/src/fs/ntfs/runs.rs:39-97 | Decoding inverts the encoding for every run list with lengths and deltas of up to eight bytes, consumes exactly the encoded bytes, rejects a prefix sum that is negative or exceeds 63 bits, and stops at an eight-byte negative delta. |
| `NtfsRuns.SignedEncoded` | lib/vfs/src/fs/ntfs/runs.rs:69-80 | Sign extension inverts the two's-complement encoding of a delta. |
| `NtfsRuns.WideNegativeFailsIff` | lib/vfs/src/fs/ntfs/runs.rs:75-80 | A run ends in the checked-shift failure if and only if its delta has eight bytes and the sign bit set, whatever the width of its length, and it ends the whole list with it. |
| `NtfsAttributes.ParseStat` | lib/vfs/src/fs/ntfs/attr.rs:146-258 | The attribute loop computes the metadata of the record, for every byte string. |
| `NtfsParse.ParsesAll` | lib/vfs/src/fs/ntfs/attr.rs:146-258 | The metadata of a record, from the bytes of its attributes, whichever there are and in whatever order: the first name, the last index root, the last size, and all runs and streams, in the record or in extents. |
| `NtfsParse.ShortIs` | lib/vfs/src/fs/ntfs/attr.rs:163-205 | An attribute shorter than its header stops the program if it is the first name, an index root without an offset, or contents without a name length; other short contents are stepped over. |
| `NtfsParse.OverlongIs` | lib/vfs/src/fs/ntfs/attr.rs:196-215 | A value that reaches past its attribute is stepped over; an index root without a value still makes the record a directory. |
| `NtfsParse.StopsSilently` | lib/vfs/src/fs/ntfs/attr.rs:29-80 | The parser stops without an error at a zero length, at one that reaches past the record, and at an unknown type. |
| `NtfsParse.StreamNameMissing` | lib/vfs/src/fs/ntfs/attr.rs:367-382 | A stream name is empty if its offset is missing or it reaches past the attribute. |
| `NtfsAttributes.FindAttributeOffset` | lib/vfs/src/fs/ntfs/index.rs:318-356 | The offset search returns the first attribute of the type or the error. |
| `NtfsParse.FindsFirst` | lib/vfs/src/fs/ntfs/index.rs:318-356 | Among any attributes the search finds the first of the type, at the length of those in front of it, and fails exactly if there is none before the end mark. |
| `NtfsParse.FindStops` | lib/vfs/src/fs/ntfs/index.rs:336-352 | The search fails at a zero length and at one that reaches past the record. |
| `NtfsAttributes.UpdateResidentData` | lib/vfs/src/fs/ntfs/attr.rs:114-141 | Overwriting a value in place changes exactly its bytes, or nothing on a mismatch. |
| `NtfsTypes.ReadBackExact` | lib/vfs/src/fs/ntfs/attr.rs:395-402 | A name survives storing and reading back if and only if it consists of non-NUL ASCII characters. |
| `NtfsTypes.Utf16NoLongerThanUtf8` | lib/vfs/src/fs/ntfs/write.rs:69-71 | The check of the UTF-8 length bounds the number of UTF-16 units. |
| `NtfsTypes.Utf8LengthIs` | lib/vfs/src/fs/ntfs/write.rs:69-71 | The length that is checked is that of the UTF-8 encoding of the name. |
| `NtfsTypes.Utf8CharDecodes` | lib/vfs/src/fs/ntfs/write.rs:69-71 | That encoding is the one of RFC 3629: the first byte of a character tells how many follow, and its bytes tell the character. |
| `NtfsTypes.LowerIs` | lib/vfs/src/fs/ntfs/index.rs:438 | Letter case is that of the 26 letters and nothing else. |
| `NtfsTypes.CharUnitsDecode` | lib/vfs/src/fs/ntfs/write.rs:223 | A stored character is one unit that is no surrogate, or a pair of surrogates that holds the character. |
| `NtfsVolume.AllocateFrom` | lib/vfs/src/fs/ntfs/write.rs:103-121 | The number handed out is the first of the scanned range whose slot is free; failure means that none is. |
| `NtfsVolume.ScanIs` | lib/vfs/src/fs/ntfs/write.rs:103-121 | The scan covers the slots from 16 up to 100000 and gives the first free one. |
| `NtfsVolume.IsFreeIff` | lib/vfs/src/fs/ntfs/write.rs:103-121 | A slot is free exactly when it can be read and starts with neither `FILE` nor `BAAD`. |
| `NtfsVolume.ReadRecordIs` | lib/vfs/src/fs/ntfs/mod.rs:155-167 | Where record n lies, and what is made of its bytes. |
| `NtfsDriver.NtfsDriver.ReadMftRecord` | lib/vfs/src/fs/ntfs/mod.rs:155-167 | Reading a record into a buffer of its own gives the specified bytes or error. |
| `NtfsDriver.NtfsDriver.GetStat` | lib/vfs/src/fs/ntfs/mod.rs:77-80 | The metadata of the record on disk. |
| `NtfsDriver.NtfsDriver.GetIndexData` | lib/vfs/src/fs/ntfs/mod.rs:169-185 | The index bytes, from the metadata or else from the record. |
| `NtfsDriver.NtfsDriver.ListNames` | lib/vfs/src/fs/ntfs/mod.rs:112-116 | The names in the directory on disk. |
| `NtfsDriver.NtfsDriver.FindName` | lib/vfs/src/fs/ntfs/mod.rs:118-122 | The record number the name leads to, the one that `FindReadsReference` describes. |
| `NtfsVolume.FindReadsReference` | lib/vfs/src/fs/ntfs/mod.rs:118-122 | Looking a name up in a directory on disk gives the number in the first six bytes of its entry. |
| `NtfsDriver.NtfsDriver.OpenPath` | lib/vfs/src/fs/ntfs/mod.rs:46-70 | The component loop follows the path from the root directory. |
| `NtfsDriver.NtfsDriver.ReadAll` | lib/vfs/src/fs/ntfs/mod.rs:97-103 | The contents of a file: resident values and extents, run by run. |
| `NtfsDriver.NtfsDriver.ReadClusters` | lib/vfs/src/fs/ntfs/runs.rs:115-125 | The inner loop reads the extents of a run one after another, with checked products. |
| `NtfsDriver.NtfsDriver.AllocateMftRecord` | lib/vfs/src/fs/ntfs/write.rs:103-121 | The scan returns the first free slot from 16 on, or no space. |
| `NtfsDriver.NtfsDriver.AddEntryTo` | lib/vfs/src/fs/ntfs/index.rs:17-39 | The parent is read, spliced and written back, or the name handed over to the external index, with the specified outcome and disk. |
| `NtfsDriver.NtfsDriver.AddExternalEntry` | lib/vfs/src/fs/ntfs/index.rs:154-315 | The block is found, read, edited and written back, with the specified outcome and disk. |
| `NtfsDriver.NtfsDriver.Create` | lib/vfs/src/fs/ntfs/write.rs:50-100 | The whole creation has the specified outcome and leaves the specified disk, on every path of failure too. |
| `NtfsDriver.NtfsDriver.WriteFile` | lib/vfs/src/fs/ntfs/write.rs:17-47 | The overwrite has the specified outcome and leaves the specified disk. |
| `NtfsCreate.PutThenRead` | lib/vfs/src/fs/ntfs/write.rs:86-91 | A record with safe fixups that was put on disk is read back up to its fixup slots. |
| `NtfsCreate.OtherSlot` | lib/vfs/src/fs/ntfs/write.rs:89-91 | Writing one record leaves every other record as it was. |
| `NtfsCreate.PutDirectory` | lib/vfs/src/fs/ntfs/index.rs:144-148 | A good directory written to disk is read back good, with the same names. |
| `NtfsCreate.ReadersAgree` | lib/vfs/src/fs/ntfs/mod.rs:112-122 | Both directory readers see exactly the entries of the well-formed index. |
| `NtfsPaths.NormalizePath` | lib/vfs/src/fs/ntfs/mod.rs:187-214 | The character loop computes the normalised path. |
| `NtfsPaths.NormalizeKeepsComponents` | lib/vfs/src/fs/ntfs/mod.rs:187-214 | Normalising never changes the components of a path. |
| `NtfsPaths.OpenIsFollow` | lib/vfs/src/fs/ntfs/mod.rs:46-70 | Opening depends on the components alone: repeated and trailing slashes are immaterial. |
| `NtfsPaths.ComponentsJoined` | lib/vfs/src/fs/ntfs/mod.rs:54 | The components of two paths joined by a slash are those of the first and then those of the second. |
| `NtfsPaths.FollowAppend` | lib/vfs/src/fs/ntfs/mod.rs:53-68 | Following two lists of components is following the first and then the second. |
| `NtfsBoot.CreateBootSector` | lib/vfs/src/partition/gpt/manager.rs:154-175 | The boot sector is written field by field into a zeroed sector; small sectors are refused. |
| `NtfsBoot.MountReads` | lib/vfs/src/fs/ntfs/boot.rs:28-70 | A boot sector that carries a geometry mounts as exactly that geometry; it fails exactly if the record-size field is 128 to 192. |
| `NtfsBoot.RecordSizes` | lib/vfs/src/fs/ntfs/boot.rs:58-70 | The record size for every value of its field: clusters from 1 to 127, one byte for 0, a power of two from 193 on, 1024 bytes for 0xF6, and a failed assertion between. |
| `NtfsBoot.ParseCreated` | lib/vfs/src/fs/ntfs/boot.rs:28-51 | Parsing that boot sector gives back the 16-bit sector size, the number of sectors, eight sectors a cluster, the file table at cluster 2, and zero as record size. |
| `NtfsBoot.CreatedVolumeIsUnreadable` | lib/vfs/src/fs/ntfs/boot.rs:62-70 | Mounting such a volume succeeds with records of one byte, so that no record can be read and no path but the root's opens. |
| `GptTheorems.CrashSafe` | lib/vfs/src/partition/gpt/write.rs:78-93 | After any number of the five writes to a disk without a table, a reader reports an error or exactly the table being written, and reports it from the primary header on. |
| `GptRewrite.RewriteCrash` | lib/vfs/src/partition/gpt/write.rs:78-93 | Over a disk that holds a table, after any number of the five writes: up to the first the old table is read, from the fourth on the new one; in between an error, unless the checksum of the array that begins with the new entries is that of the old one. |
| `GptRewrite.BackupIsIntact` | lib/vfs/src/partition/gpt/read.rs:18-41 | After the second write the whole backup of the old table could still be read, but the reader does not turn to it. |
| `GptRewrite.OneByteRewrite` | lib/vfs/src/partition/gpt/write.rs:81-87 | Rewriting a table with one byte of its entries changed: between the second and the fourth write neither table can be read. |
| `GptTheorems.OneByteCorruption` | lib/vfs/src/partition/gpt/read.rs:18-62 | For any one changed byte anywhere on a written disk: an error exactly if it lies in the primary entry array; otherwise the table written, through the backup header exactly if it is one of the 92 covered bytes. |
| `GptTheorems.WriteThenRead` | lib/vfs/src/partition/gpt/write.rs:24-94 | A successful write is read back; and on a disk without a table, wherever writing stops, nothing but the table being written can be read. |
| `GptTheorems.WrittenBytes` | lib/vfs/src/partition/gpt/write.rs:24-168 | Every byte of the disk after a successful write: the protective boot record, both entry arrays with every field of every entry, and both headers with all their fields, each naming its own block and the other's; everything else is as it was. |
| `GptTheorems.FitsIff` | lib/vfs/src/partition/gpt/write.rs:25-40 | A table fits exactly when it has at most 128 entries, blocks hold a boot record, and 37 blocks are left beside the entries. |
| `GptTheorems.HeaderAcceptedIff` | lib/vfs/src/partition/gpt/read.rs:44-91 | A reader accepts a header exactly when its block has at most 4096 bytes, can be read and holds the signature, the two sizes and the checksum of its other 88 bytes. |
| `GptTheorems.EntriesReadIff` | lib/vfs/src/partition/gpt/read.rs:116-145 | The entries of a header are read exactly when they are at most 512 and can be read, and every field of each comes from its bytes. |
| `GptTheorems.WrittenTableRead` | lib/vfs/src/partition/gpt/write.rs:24-94 | A completely written table is read back, whatever was on the disk before. |
| `GptTheorems.OutcomeIsPrefix` | lib/vfs/src/partition/gpt/write.rs:81-93 | An early return leaves the disk after a prefix of the five writes, all of them exactly on success. |
| `GptTheorems.LayoutOrdered` | lib/vfs/src/partition/gpt/write.rs:35-49 | MBR, headers and entry arrays do not overlap and lie on the disk. |
| `GptTheorems.SealedVerifies` | lib/vfs/src/partition/gpt/read.rs:44-62 | A finalised header passes verification. |
| `GptTheorems.CorruptHeaderRejected` | lib/vfs/src/partition/gpt/read.rs:52-59 | A header with one covered byte changed never passes verification. |
| `GptTheorems.CorruptTable` | lib/vfs/src/partition/gpt/read.rs:172-175 | An entry array with one byte changed never passes its checksum. |
| `GptManager.FormatThenReport` | lib/vfs/src/partition/gpt/manager.rs:33-129 | After a successful format with 512- to 4096-byte blocks the report is exactly an ESP and an NTFS partition: non-empty, adjacent, in the usable range and clear of all headers and arrays, of the wanted size if there is room. |
| `GptManager.ArrangeFits` | lib/vfs/src/partition/gpt/manager.rs:37-64 | Arranging succeeds exactly on disks with 128 sectors beside the ESP, and then fits. |
| `GptManager.ArrangeIs` | lib/vfs/src/partition/gpt/manager.rs:37-64 | Where the partitions go, in numbers, for every disk size and wanted size. |
| `GptManager.FormattedEntries` | lib/vfs/src/partition/gpt/manager.rs:66-83 | The two entries: the two types by their text form, the identifiers, the ranges, the names and no attributes. |
| `GptManager.FormatDisk` | lib/vfs/src/partition/gpt/manager.rs:33-88 | Formatting has the specified outcome and disk. |
| `GptManager.FindOffset` | lib/vfs/src/partition/gpt/manager.rs:143-151 | The search loop returns the byte offset of the first partition of a type, the checked failure if that offset exceeds 64 bits, or not found exactly if there is none. |
| `GptManager.DescribeIff` | lib/vfs/src/partition/gpt/manager.rs:96-119 | An entry is described, with the size of its blocks in bytes, exactly when it is not empty and that size fits 64 bits. |
| `GptManager.NameRoundTrip` | lib/vfs/src/partition/gpt/manager.rs:215-230 | An ASCII name of at most 36 characters survives the 36-unit field. |
| `GptManager.DescribesFormatted` | lib/vfs/src/partition/gpt/manager.rs:96-119 | The two formatted entries are described as the two partitions. |
| `GptGuid.GuidSource.Generate` | lib/vfs/src/partition/gpt/mod.rs:22-30 | The identifier of the counter, which advances and wraps. |
| `GptGuid.GuidIs` | lib/vfs/src/partition/gpt/mod.rs:22-30 | Version 4 and the standard variant are set; every other bit is that of the counter or of its scrambled form. |
| `GptGuid.GuidsDiffer` | lib/vfs/src/partition/gpt/mod.rs:22-30 | Distinct counters never give the same identifier, in spite of the six overwritten bits. |
| `GptRead.ReadGpt` | lib/vfs/src/partition/gpt/read.rs:18-41 | Reading gives the specified table or error: primary header, or backup if it does not verify. |
| `GptRead.ReadTrustedHeader` | lib/vfs/src/partition/gpt/read.rs:21-35 | The primary header if it verifies, otherwise the backup. |
| `GptRead.ReadHeaderRaw` | lib/vfs/src/partition/gpt/read.rs:81-91 | A sector with the signature, or nothing. |
| `GptRead.ParseAndVerifyHeader` | lib/vfs/src/partition/gpt/read.rs:44-62 | A header with valid fields and checksum, or the specified error. |
| `GptRead.ReadEntries` | lib/vfs/src/partition/gpt/read.rs:116-145 | The parsed entry array, with the limits of the program. |
| `GptRead.ParseEntryArray` | lib/vfs/src/partition/gpt/read.rs:141-144 | Parsing chunk by chunk gives all entries. |
| `GptRead.SerializeTable` | lib/vfs/src/partition/gpt/mod.rs:56-69 | Extending a buffer entry by entry gives the serialised array. |
| `GptRead.VerifyEntriesCrc` | lib/vfs/src/partition/gpt/read.rs:172-175 | Whether the checksum of the re-serialised entries is the stored one. |
| `GptFormat.ParseEntryBytes` | lib/vfs/src/partition/gpt/read.rs:147-160 | Parsing inverts serialising, for every entry. |
| `GptFormat.EntryBytesParse` | lib/vfs/src/partition/gpt/read.rs:147-160 | Serialising inverts parsing, for every 128 bytes. |
| `GptFormat.ParseSerialized` | lib/vfs/src/partition/gpt/mod.rs:56-69 | Parsing a serialised array gives the entries. |
| `GptFormat.SerializeParsed` | lib/vfs/src/partition/gpt/read.rs:172-175 | Serialising a parsed array gives back its bytes, so that checking the re-serialised entries checks the disk. |
| `GptFormat.ParseHeaderBytes` | lib/vfs/src/partition/gpt/read.rs:93-114 | Parsing inverts building a header, for every header. |
| `GptWrite.BuildHeader` | lib/vfs/src/partition/gpt/write.rs:96-131 | Filling a zeroed sector field by field gives the header bytes. |
| `GptWrite.FinalizeHeaderCrc` | lib/vfs/src/partition/gpt/write.rs:133-138 | The header with its checksum in place. |
| `GptWrite.WriteProtectiveMbr` | lib/vfs/src/partition/gpt/write.rs:140-168 | The protective MBR is written to block 0. |
| `GptWrite.WriteTables` | lib/vfs/src/partition/gpt/write.rs:78-93 | Four writes in the fixed order, stopping at the first that fails. |
| `GptWrite.WriteGpt` | lib/vfs/src/partition/gpt/write.rs:24-94 | The specified outcome and disk: refusals before and after the MBR write included; `GptTheorems.WrittenBytes` gives the bytes. |
| `Crc32.BuildTable` | lib/vfs/src/partition/gpt/mod.rs:32-46 | The nested loops fill the table with the bitwise remainders. |
| `Crc32.BuildEntry` | lib/vfs/src/partition/gpt/mod.rs:36-42 | One table entry is eight shift-and-xor steps. |
| `Crc32.ComputeCrc` | lib/vfs/src/partition/gpt/mod.rs:48-54 | The table loop returns the bit-at-a-time checksum. |
| `Crc32.TableIsDivision` | lib/vfs/src/partition/gpt/mod.rs:48-54 | The table-driven checksum is bit-at-a-time polynomial division, for every byte string. |
| `CrcPolynomial.CrcIsRemainder` | lib/vfs/src/partition/gpt/mod.rs:48-54 | The checksum of every byte string is the complement of the remainder of a long division of polynomials: the message bits, the first 32 of them complemented, followed by 32 zeros, by the generator. |
| `CrcPolynomial.PolyIsGenerator` | lib/vfs/src/partition/gpt/mod.rs:39 | The constant of the program is that generator, x^32 + x^26 + x^23 + ... + x + 1, its highest power in the lowest bit. |
| `Crc32.UpdateInjective` | lib/vfs/src/partition/gpt/mod.rs:51 | The per-byte update is injective in the register and in the byte. |
| `Crc32.OneByteDetected` | lib/vfs/src/partition/gpt/mod.rs:48-54 | Two inputs that differ in exactly one byte never share a checksum. |
| `BlockStorage.BlockDevice.WriteBlocks` | lib/hal/src/block/mod.rs:9 | A write replaces exactly the bytes at the offset or changes nothing. |
| `Bytes.U32Is` | lib/vfs/src/fs/ntfs/index.rs:414-419 | Four bytes as a number, the lowest first. |
| `Bytes.U64Is` | lib/vfs/src/fs/ntfs/index.rs:426 | Eight bytes as a number: the low four and, 2^32 times, the high four. |
| `Bytes.LEIs` | lib/vfs/src/partition/gpt/write.rs:115-130 | A number as two, four or eight bytes, the lowest first. |
| `LinkedListRuns.RunGood` | kernel/src/memory/types/linked_list/alloc.rs:11-129 | Over every sequence of allocations and frees, the free regions, held blocks and dropped padding partition the heap exactly, free regions stay 8-aligned and at least 16 bytes, and blocks stay aligned. |
| `LinkedListRuns.BytesConserved` | kernel/src/memory/types/linked_list/alloc.rs:11-129 | Free, held and dropped bytes always add up to the heap. |
| `LinkedListRuns.HeldBlocksAreSafe` | kernel/src/memory/types/linked_list/alloc.rs:11-28 | Held blocks are as large and as aligned as requested, inside the heap, apart from each other and from all free memory. |
| `LinkedListRuns.PaddingOnlyGrows` | kernel/src/memory/types/linked_list/alloc.rs:116-129 | Dropped padding is never recovered, and there is none while all alignments are at most 8. |
| `LinkedListRuns.NeverMerges` | kernel/src/memory/types/linked_list/alloc.rs:71-86 | Over every run each region lies inside one region of the start: nothing is ever merged. |
| `LinkedListRuns.TooLargeForever` | kernel/src/memory/types/linked_list/alloc.rs:93-110 | A request larger than every region fails after every further run, even if everything is freed. |
| `LinkedListRuns.EmptiedHeapStaysSplit` | kernel/src/memory/types/linked_list/alloc.rs:71-110 | A heap of 64 bytes that gave out two blocks of 32 and got both back: it is whole, nobody holds a block, and the 64 bytes it could give at the start it never gives again. |
| `LinkedListRuns.StepGood` | kernel/src/memory/types/linked_list/alloc.rs:11-35 | Every call keeps the invariant. |
| `LinkedListRuns.StartGood` | kernel/src/memory/types/linked_list/alloc.rs:64-68 | A fresh heap satisfies the invariant. |
| `LinkedListRuns.Drive` | kernel/src/memory/types/linked_list/alloc.rs:11-86 | The object driven through any run never fires an assertion, and its list is the one of the run. |
| `LinkedListAllocator.Allocator.Init` | kernel/src/memory/types/linked_list/alloc.rs:64-68 | A fresh allocator owns the whole heap as one region. |
| `LinkedListAllocator.Allocator.AddFreeRegion` | kernel/src/memory/types/linked_list/alloc.rs:71-86 | A node written into the region goes to the front of the list; its two assertions are the preconditions. |
| `LinkedListAllocator.Allocator.TakeRegion` | kernel/src/memory/types/linked_list/alloc.rs:93-110 | The walk unlinks the first region that can hold the request and only that one. |
| `LinkedListAllocator.Allocator.Allocate` | kernel/src/memory/types/linked_list/alloc.rs:11-28 | The address and free list that `AllocTakes` and `AllocFailsIff` describe; the rest of a split region meets both assertions of the program. |
| `LinkedListAllocator.Allocator.Deallocate` | kernel/src/memory/types/linked_list/alloc.rs:30-35 | The block becomes the first free region. |
| `LinkedListAllocator.FirstFitFacts` | kernel/src/memory/types/linked_list/alloc.rs:93-110 | The region found is the first of those that `FitIff` describes, and none is found only if there is none. |
| `LinkedListAllocator.AllocFailsIff` | kernel/src/memory/types/linked_list/alloc.rs:11-28 | Allocation returns null if and only if no region has an address at which the request can start: the least multiple of the alignment, with nothing or at least 16 bytes left behind the request. |
| `LinkedListAllocator.FitIff` | kernel/src/memory/types/linked_list/alloc.rs:116-129 | For every region, size and alignment: a request is placed at an address if and only if that is the least multiple of the alignment from the region's start on and what is left behind the request is nothing or at least 16 bytes. |
| `LinkedListAllocator.AllocTakes` | kernel/src/memory/types/linked_list/alloc.rs:11-28 | The whole effect of a success: the first region with such an address is unlinked, that address is returned, and what is left behind the request becomes the first free region. |
| `LinkedListAllocator.SizeAlignIs` | kernel/src/memory/types/linked_list/alloc.rs:50-57 | The adjusted layout in numbers: an alignment of at least 8, and the least multiple of it that covers the request, or 16 bytes. |
| `LinkedListAllocator.FreeThenAlloc` | kernel/src/memory/types/linked_list/alloc.rs:11-35 | Freeing a block and allocating the same layout returns the same address and restores the list exactly. |
| `LinkedListAllocator.SizeAlignFacts` | kernel/src/memory/types/linked_list/alloc.rs:50-57 | Adjusted layouts cover the request and always leave room and alignment for a node. |
| `LinkedListAllocator.FitFacts` | kernel/src/memory/types/linked_list/alloc.rs:116-129 | A fit lies aligned inside its region and leaves nothing or a whole region behind. |
| `FixedSizeBlock.RunGood` | kernel/src/memory/types/fixed_size_block/mod.rs:53-94 | Over every history with an honest fallback heap: what is held or listed is exactly what the heap handed out, none of it overlaps, and list i holds blocks aligned to class i. |
| `FixedSizeBlock.HeldBlocksAreSafe` | kernel/src/memory/types/fixed_size_block/mod.rs:53-71 | Held blocks have the requested size and alignment and share no byte with each other or with listed blocks. |
| `FixedSizeBlock.ClassMemoryIsPeak` | kernel/src/memory/types/fixed_size_block/mod.rs:53-94 | The number of blocks of a class is exactly the most that were ever in use at once: they are reused but never given back. |
| `FixedSizeBlock.LastInFirstOut` | kernel/src/memory/types/fixed_size_block/mod.rs:53-94 | A block given back is the next one handed out for any layout of its class, without asking the heap. |
| `FixedSizeBlock.GiveToHeapGood` | kernel/src/memory/types/fixed_size_block/mod.rs:86-91 | Memory returned to the fallback heap is memory it handed out, with the same layout. |
| `FixedSizeBlock.ListIndex` | kernel/src/memory/types/fixed_size_block/mod.rs:11-14 | The smallest class that is as large as size and alignment; none exactly above 2048. |
| `FixedSizeBlock.ListIndexIff` | kernel/src/memory/types/fixed_size_block/mod.rs:11-14 | Nine classes, doubling from 8 bytes; a layout goes to a class if and only if that is the first as large as its size and its alignment. |
| `FixedSizeBlock.Allocator.Alloc` | kernel/src/memory/types/fixed_size_block/mod.rs:54-71 | Popping the class list or asking the heap, exactly as specified. |
| `FixedSizeBlock.Allocator.Dealloc` | kernel/src/memory/types/fixed_size_block/mod.rs:73-93 | Pushing on the class list or returning to the heap, exactly as specified. |
| `FixedSizeBlock.Drive` | kernel/src/memory/types/fixed_size_block/mod.rs:53-94 | The object driven through any legal run has the lists of the run and never lists a block twice. |
| `FrameAllocator.NoFrameTwiceIff` | kernel/src/memory/mod.rs:110-131 | For every memory map: no frame is handed out twice if and only if the pages of no two usable regions meet. |
| `FrameAllocator.AlignedStartsSuffice` | kernel/src/memory/mod.rs:110-131 | Disjoint regions with page-aligned starts never give a frame twice. |
| `FrameAllocator.SharedPageIsHandedOutTwice` | kernel/src/memory/mod.rs:117-122 | Disjointness alone is not enough: two regions that share a page give it twice. |
| `FrameAllocator.HandedOutIff` | kernel/src/memory/mod.rs:110-131 | For every memory map: everything handed out is the start of a page at or above 32 MB, and a page is handed out if and only if a usable region contains, of that page, the address as far into it as the region's first address is into its own. |
| `FrameAllocator.FrameOrder` | kernel/src/memory/mod.rs:110-131 | The whole enumeration, in numbers: the frames of a region follow those of the regions in front of it and ascend page by page from the one that holds its first address at or above 32 MB. |
| `FrameAllocator.FramesUsableIff` | kernel/src/memory/mod.rs:110-123 | Every frame starts in usable memory if and only if the first frame of every region does; a first frame starts before its own region exactly if the region starts above 32 MB and inside a page. |
| `FrameAllocator.LastFrameSpillsIff` | kernel/src/memory/mod.rs:117-122 | The frames of a region stay inside it if and only if it ends no further into a page than its first address lies. |
| `FrameAllocator.FrameTotal` | kernel/src/memory/mod.rs:110-123 | The number of frames is the total of the regions' pages. |
| `FrameAllocator.BootInfoFrameAllocator.AllocateFrame` | kernel/src/memory/mod.rs:127-131 | Each call enumerates again and returns the frame at the counter, which always advances. |
| `FrameAllocator.NthIn` | kernel/src/memory/mod.rs:117-121 | Skipping in one region returns its n-th frame or how many remain to skip. |
| `FrameAllocator.AllocateMany` | kernel/src/memory/mod.rs:127-131 | Calls in a row give the enumeration in order, exactly the total number, and none for ever after. |
| `Executor.NoLostKeystroke` | kernel/src/task/shell/scancodes.rs:25-42 | In every interleaving from the start: what the shell has read and what waits are, in order, the keys that struck while its stream was open and fewer than 256 scancodes waited, so all keys that struck it exactly if none found 256 waiting; a shell suspended on the keyboard with a scancode waiting is queued; the processor never halts with a queued id or with a waiting scancode for a suspended shell. |
| `Executor.KeysInOrder` | kernel/src/interrupts/mod.rs:78-88 | The same from any state: read and waiting scancodes are those of before, then the keys that struck the stream with room, without loss, repetition or reordering. |
| `Executor.NothingMissingIff` | kernel/src/task/shell/scancodes.rs:14-16 | A pressed key is missing exactly when some key struck the open stream while 256 scancodes waited. |
| `Executor.OpenIff` | kernel/src/task/shell/scancodes.rs:13-19 | The stream is open exactly from the time the shell first asks for a scancode. |
| `Executor.RunKeeps` | kernel/src/task/executor.rs:31-69 | The protocol invariant holds after every interleaving of program steps and interrupts. |
| `Executor.CpuKeeps` | kernel/src/task/executor.rs:31-69 | Every atomic operation of the program keeps the invariant. |
| `Executor.KeyKeeps` | kernel/src/interrupts/mod.rs:78-95 | The keyboard interrupt keeps the invariant wherever it strikes. |
| `Executor.TimerKeeps` | kernel/src/interrupts/mod.rs:66-76 | The timer interrupt keeps the invariant wherever it strikes. |
| `Executor.HaltedKeyIsDelivered` | kernel/src/task/executor.rs:60-69 | A key pressed at a halt while the shell waits is read by it within three steps. |
| `Executor.HaltsIffNothingQueued` | kernel/src/task/executor.rs:60-69 | With nothing left to do the processor halts exactly when the queue is still empty once interrupts are off, and nothing strikes in between. |
| `Executor.HaltedTickRunsSleeper` | kernel/src/task/sleep.rs:23-30 | At a halt the tick at which a lone sleeper is due runs it within three steps. |
| `Executor.SleepsLongEnough` | kernel/src/task/sleep.rs:14-30 | A task that asks to sleep for n ticks does not run its own code again before n timer interrupts have struck, in any interleaving and whatever wakes it. |
| `Executor.FirstComeFirstServed` | kernel/src/task/executor.rs:31-53 | The task queue is first in, first out: the ids taken off it and those still on it are those queued at first and then those woken, in order. |
| `Executor.LoneSleeperWakes` | kernel/src/task/sleep.rs:23-30 | A lone suspended sleeper is registered or queued in every interleaving. |
| `Executor.ShellSleepsSafely` | kernel/src/task/sleep.rs:23-30 | The program as shipped, with the shell alone, never loses a sleeper. |
| `Executor.LostExactlyWhenOverwritten` | kernel/src/task/sleep.rs:27-28 | A sleeper is lost exactly when another one stores its waker in the only slot before a tick. |
| `Executor.LostForever` | kernel/src/task/sleep.rs:23-30 | No continuation ever runs a lost sleeper again. |
| `Executor.TwoSleepersLoseTheFirst` | kernel/src/task/sleep.rs:23-30 | With two sleeping tasks there is a schedule that loses the first for good. |
| `Executor.NoPanic` | kernel/src/task/executor.rs:82 | While tasks and keys that hit the waker window are together at most 100, no wake finds the queue full, in any interleaving. |
| `Executor.NoPanicIff` | kernel/src/task/executor.rs:82 | For every set of tasks with the shell among them and every number h: no interleaving with at most h keys in the waker window panics if and only if the tasks and h together are at most 100. |
| `Executor.PanicReachable` | kernel/src/task/executor.rs:82 | For every set of tasks there is an interleaving that panics with exactly one key in the window more than fits. |
| `Executor.StartTokens` | kernel/src/task/executor.rs:23-29 | At the start exactly the spawned ids are in circulation. |
| `Executor.TokensStep` | kernel/src/task/executor.rs:72-89 | Only a key in the waker window adds an id to those in circulation. |
| `Fat32.FileBytesAre` | bootloader/stage3/src/fat32.c:123-161 | What a read yields is the first max bytes of the concatenated clusters, for any number of clusters that covers max bytes or the whole chain. |
| `Fat32.FileLength` | bootloader/stage3/src/fat32.c:123-161 | The whole chain if it ends and fits, otherwise max bytes; a chain that never ends fills the buffer. |
| `Fat32.CyclicFileFills` | bootloader/stage3/src/fat32.c:133-158 | A chain that comes back to its start fills the buffer, however large. |
| `Fat32.Reader.ReadFile` | bootloader/stage3/src/fat32.c:123-161 | The loops terminate on every table and write exactly those bytes, the ones `FileOnDisk` gives, leaving the rest of the buffer alone. |
| `Fat32.FileOnDisk` | bootloader/stage3/src/fat32.c:25-40 | The file from the bytes of the disk alone: if the table's bytes chain clusters to an end, or far enough, its length and every one of its bytes, by cluster, sector and offset. |
| `Fat32.ContiguousFile` | bootloader/stage3/src/fat32.c:37-40 | A file in the clusters 2, 3, ... is what lies in the sectors right behind the tables. |
| `Fat32.FatEntryLinks` | bootloader/stage3/src/fat32.c:26-35 | The successor of a cluster is the low 28 bits of the four bytes at four times its number behind the start of the table. |
| `Fat32.Reader.ReadSectors` | bootloader/stage3/src/fat32.c:140-155 | One cluster's sectors, cut off at max bytes. |
| `Fat32.Reader.CopySector` | bootloader/stage3/src/fat32.c:147-154 | One sector copied byte by byte, cut off at what remains. |
| `Fat32.ChainAfter` | bootloader/stage3/src/fat32.c:157 | A chain is any prefix of it followed by the chain from where the prefix leads. |
| `Fat32.MountReads` | bootloader/stage3/src/fat32.c:56-82 | A boot sector that carries a geometry mounts as exactly that geometry, and fails exactly if its sector size or cluster size is zero. |
| `Fat32.MountLayout` | bootloader/stage3/src/fat32.c:78-79 | On a mounted disk cluster 2 lies right behind the tables and every cluster right behind the one before it, so that none overlap, and a cluster's table entry is read from before them exactly when the tables have room for it. |
| `Fat32Root.FindRootReturnsIff` | bootloader/stage3/src/fat32.c:84-121 | The directory lookup returns if and only if the chain does not come back to a cluster before the search is settled, and then within 2^28 + 2 turns, with the same answer however many more are allowed; on such a loop it never returns. |
| `Fat32Root.LoopingDisk` | bootloader/stage3/src/fat32.c:84-121 | A disk that mounts and on which the lookup of no name that does not start with a space ever returns. |
| `Fat32Root.FindRoot` | bootloader/stage3/src/fat32.c:84-121 | The loop over the chain, for any bound on its turns, gives the specified answer. |
| `Fat32Root.FindOnDisk` | bootloader/stage3/src/fat32.c:84-121 | When the table's bytes chain the clusters of the root directory to an end, the lookup gives what its entries, read like a file, decide, and zero if they leave it open. |
| `Fat32Root.DecisionIs` | bootloader/stage3/src/fat32.c:94-115 | What the first entry that is not passed over decides, from its bytes: the end, or the cluster in bytes 20, 21, 26 and 27. |
| `Fat32Root.DirectoryLbaIs` | bootloader/stage3/src/fat32.c:38-40 | Clusters 0 and 1 are not refused: the 32-bit subtraction wraps. |
| `Fat32Root.ScanSector` | bootloader/stage3/src/fat32.c:94-115 | The loop over the sixteen entries gives what the first entry that settles the search says. |

## Left out

- NtfsVolume.ReadExtents: a buffer larger than memory is a failed read in the model and an abort in the original; the same holds for the block of an external index.
- NtfsExtents.ExtentReadIff: the device begins with the file system; behind a partition offset, which that path does not add, the bytes come from yet another place.
- NtfsVolume.Slot: 64-bit overflow of record offsets is not modelled, because offsets stay below the size of a device.
- NtfsTypes.NtfsStat: timestamps, security descriptors, reparse points and object ids are straight field reads and are not kept.
- NtfsTypes.ReadBackExact: names are sequences of Unicode characters with their UTF-16 and UTF-8 lengths; the allocator's and the formatter's string types are not part of this model.
- NtfsIndex.Inserted: entries are appended, as the code does; collation order is not attempted by the code.
- NtfsCreate.CreateFileCorrect: the MFT bitmap is not maintained by the code, so "free" means what the scan means by it; in sectors of fewer than 10, of 25 to 27, or of 49 to 55 bytes a tail falls on a new record's header (`NtfsBuiltRecord.BuiltFixups`), and the theorems about creations leave them out.
- NtfsOutcome.CreateSucceedsIff: an external index whose block overlaps the slot of the new record is left out, here and in `NtfsOutcome.FailedCreation`; then what is written there depends on bytes of both.
- NtfsClearance.RoundTripsIff: that clearance is necessary is proved for sectors of at least 10 bytes that are longer than the array; `NtfsClearance.ApplyThenReapply` has no such premise.
- NtfsOpen.NewPathOpensIff: a name that contains a slash is several components, so that the extended path asks for directories the creation did not make.
- NtfsRewrite.RewriteCorrectIff: the first data attribute is resident; the driver does not check this before it writes, and `NtfsRewrite.RewriteOfNothing` says what happens when the field it takes for the value length is zero. Runs that are read from the record's own slot are left out; `NtfsRewrite.RewriteReplaces` covers them.
- GptRewrite.RewriteCrash: the primary areas can be read; the older table was completely written by the same procedure.
- GptTheorems.CrashSafe: blocks have 512 to 4096 bytes and cover the device exactly; the reader refuses larger blocks and the MBR does not fit smaller ones.
- BlockStorage.BlockDevice.WriteBlocks: torn writes and devices whose failures change over time are not modelled.
- GptManager.FormatThenReport: GUIDs are reported as bytes; their text form is formatting only.
- GptWrite.WriteGpt: the disk GUID is a parameter; `GptGuid` models the generator by itself.
- GptRead.ReadGpt: 64-bit overflow of `lba * sector` is an error in the code and in the model; block counts are below 2^64, as their type is.
- LinkedListAllocator.AllocFromRegion: overflow of an address near the end of the address space is not modelled; regions end well below it.
- LinkedListRuns.Step: giving back a block that is not held, or with another layout, is undefined in the original and not a step.
- FixedSizeBlock.Honest: the fallback heap (`linked_list_allocator`) is an external crate, represented by the contract that its answers are aligned and apart from everything outstanding.
- Executor.Step: the executor is modelled on values, as a step system, because interrupts may come between any two of its operations; `Executor` objects, the waker cache and the bodies of tasks are abstracted to ids and choices.
- Executor.Wake: the internals of `AtomicWaker` and `ArrayQueue` are atomic operations; wrap-around of the tick counter is not modelled.
- FrameAllocator.BootInfoFrameAllocator: `init_from_raw`, which copies up to 256 non-empty entries of the boot loader's map, would only add an easy member.
- Fat32Root.FindRoot: the number of turns is bounded by a parameter, because the original's loop is not; `Fat32Root.FindRootReturnsIff` says when the bound does not matter.
- Fat32.Volume: the disk answers for every sector number; a failing sector callback cannot be reported in the original either.
- Drivers, ACPI, ELF loading, shell commands, the screen and the registries are not part of this model.
