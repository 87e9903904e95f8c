# xv6 kernel and user library, verified

This project models the hard parts of an xv6-derived RISC-V kernel, its image builder and its user library,
and proves what they are for. Code that works by updating memory is modelled as classes and arrays whose methods
are proved against specification functions; concurrent protocols are modelled as step machines over every
interleaving. `dafny verify dfyconfig.toml` checks all of it.

## The parts

- **Redo log over the buffer cache** (`BufferCache`, `Recovery`, `Log`, `LogAdmission`, `LogHistory`). The cache is an array of
  buffers threaded by next and prev pointers; the log runs on top of it and on a disk whose every content since
  boot is recorded. The main results are crash consistency of whole runs, for any crash point and any number of
  crashes inside recovery, boot after boot, durability of ended transactions, the agreement of cache, pins and
  disk, and the exact condition under which log_write cannot panic.
- **File contents** (`BlockMap`, `Files`, `Mkfs`, `Directory`, `Paths`). A ghost map says which slot of which inode
  holds each block; the bitmap, the inode addresses and the indirect blocks on disk agree with it. On top of it
  files are byte sequences, directories are maps and paths are folds of those maps. mkfs establishes the invariant
  the kernel keeps, exactly when the files fit.
- **Page tables and process images** (`PageTable`, `UserBytes`, `Vm`, `Processes`, `Exec`). Memory is a map of raw pages of 512
  words; a ghost map says which page is free, which table of which space, or which user page. The three-level tables
  of section 4.4 (Sv39) of the RISC-V Privileged Architecture, version 20211203, refine a flat map of translations,
  and pages are conserved through every way kalloc can fail, over runs of any number of processes, which never
  disturb each other. Free pages are
  counted, so that growing, copying and exec succeed exactly when the pages they need are free.
- **Sleeping and waking** (`SleepLock`, `ExitWait`). Processes take steps in any order; locks are owned by process.
  Beside what every run keeps, it is shown how each call can end and that it does once no lock is in its way.
- **Virtio disk ring** (`Virtio`). Driver and device share descriptors, an avail ring and a used ring as in sections
  2.6 and 5.2 of Virtio 1.1; the device acts between any two driver steps. The whole is shown to
  amount to a disk that carries out every request at once.
- **User code** (`Umalloc`, `Shell`, `ShellGrammar`, `Grep`). The circular free list, the recursive descent parser, the
  language it is to read, and the matcher.

## Where the code does less than one would expect

- begin_op reserves against LOGSIZE slots while log_write panics one slot earlier. Three operations that each log
  MAXOPBLOCKS blocks reach the panic; operations that log at most one block less never do (`LogAdmission.PanicFreeIff`).
- mkfs rounds the root directory's size up to a whole block even when it is one already. With 62 files, or 62 plus a
  multiple of 64, the block below the new size is not allocated (`Mkfs.Make`, `Mkfs.RootWithHole`,
  `Mkfs.HoleReached`). The comment in the source speaks of fixing the size.
- malloc accepts requests up to 4294967295 bytes, but morecore passes the byte count through an int parameter. Above
  0x7fffffe0 bytes it asks for a different amount than it then uses (`Umalloc.AskFitsIff`, `Umalloc.AskFails`), so
  above that bound `Umalloc.Allocator.Malloc` is stated for requests that a free block meets or the kernel refuses.
- exec takes uvmalloc's 0 for a failure. A loadable segment that ends at 0, while the image is still empty, is
  therefore refused although it needs no memory (`Exec.LoadHeader`, `Exec.EmptySegment`).
- grep's search for a newline stops at a NUL. From the first line with a NUL on nothing is printed (`Grep.Run`).

## Model

| member | source | states |
|---|---|---|
| `BufferCache.Bcache.Binit` | src/kernel/fs/bio.c:36-53 | The doubly linked list built by insertion behind the head holds every buffer exactly once; nothing is valid, locked or referenced. |
| `BufferCache.Bcache.FindCached` | src/kernel/fs/bio.c:63-73 | Walking the next pointers finds a buffer of (dev, blockno) if and only if one exists. |
| `BufferCache.Bcache.FindUnused` | src/kernel/fs/bio.c:75-87 | Walking the prev pointers finds the least recently used unreferenced buffer: everything behind it is referenced; it fails exactly when all buffers are referenced. |
| `BufferCache.Bcache.Bget` | src/kernel/fs/bio.c:58-89 | At most one buffer per block of a device other than 0 is kept; a hit adds one reference, a miss recycles the least recently used unreferenced buffer, and the panic happens exactly when the block is not cached and no buffer is unreferenced; the sleep lock is granted exactly when nobody holds it, and a caller that must wait has its reference; no other buffer changes. |
| `BufferCache.Bcache.Bread` | src/kernel/fs/bio.c:92-103 | The buffer granted is valid and holds its cached data on a valid hit and the disk's data otherwise; a caller that must wait for the lock has changed no data; the same panic condition and frame as bget. |
| `BufferCache.Bcache.Resume` | src/kernel/fs/bio.c:97-103 | A caller that waited goes on when the lock is granted to it: the buffer is valid, filled from the disk exactly when it was not. |
| `BufferCache.Bcache.Bwrite` | src/kernel/fs/bio.c:106-112 | Exactly one disk block changes, to the locked buffer's data, and the new disk is appended to the history, in which every disk is the one before it after one block write. |
| `BufferCache.Bcache.Brelse` | src/kernel/fs/bio.c:116-137 | One reference and the lock are dropped; the list order changes only when the last reference goes, by moving the buffer to the front; no other buffer changes. |
| `BufferCache.Bcache.MoveToFront` | src/kernel/fs/bio.c:126-134 | The pointer surgery on next and prev is exactly moving one element of the list order to the front. |
| `BufferCache.Bcache.Bpin` | src/kernel/fs/bio.c:139-144 | One reference more on one buffer, cache invariant kept. |
| `BufferCache.Bcache.Bunpin` | src/kernel/fs/bio.c:146-151 | One reference less on one buffer, cache invariant kept, for a caller that owns the pin. |
| `BufferCache.Unlinked` | src/kernel/fs/bio.c:128-129 | Writing the two neighbours' pointers of any element takes exactly that element out of the circular list. |
| `BufferCache.Pushed` | src/kernel/fs/bio.c:130-133 | The four pointer writes behind the head put the buffer first in the circular list. |
| `Recovery.InstalledAt` | src/kernel/fs/log.c:68-83 | After any number of copies every block holds its last logged version among those copied, or what it held before. |
| `Recovery.RecoverAfterCopies` | src/kernel/fs/log.c:68-83 | A crash after any number of copies of install_trans: recovering from there ends in the disk that uninterrupted recovery would have left. |
| `Recovery.RecoverAfterErase` | src/kernel/fs/log.c:116-123 | Recovering a recovered disk changes nothing. |
| `Recovery.RepeatedCrashes` | src/kernel/fs/log.c:116-123 | However many times recovery itself crashes, at whatever write, the recovery that completes leaves the same disk. |
| `RedoLog.Log.Fetch` | src/kernel/fs/bio.c:92-103 | bread under the log: the buffer is the block's only buffer and holds the newest contents (log blocks as on disk, home blocks as last written by any operation). |
| `RedoLog.Log.CopyToLog` | src/kernel/fs/log.c:183-189 | A round of write_log writes exactly the newest contents of a pinned logged block into its slot and no other block. |
| `RedoLog.Log.WriteLog` | src/kernel/fs/log.c:178-191 | The disks written are the staged ones in order: log slots only, no home block and not the header, each slot with the newest logged data. |
| `RedoLog.Log.WriteHead` | src/kernel/fs/log.c:102-114 | One block write after which the on-disk header lists exactly the in-memory one; with n = 0 it is the erased header. |
| `RedoLog.Log.InstallTrans` | src/kernel/fs/log.c:68-83 | Home blocks get their last logged versions; after a commit every pin is dropped exactly once (no pin is left), in recovery none is touched; the write history is exactly the copies. |
| `RedoLog.Log.Commit` | src/kernel/fs/log.c:193-203 | With other blocks locked by their readers, as long as none is being logged: current contents stay, nothing stays pinned, locked buffers stay as they are, the home blocks on disk equal the current contents, and every disk written on the way recovers to all of the old or all of the new home blocks, with one switching point. |
| `RedoLog.Log.ReadHead` | src/kernel/fs/log.c:86-97 | The in-memory header equals the on-disk one. |
| `RedoLog.Log.RecoverFromLog` | src/kernel/fs/log.c:116-123 | The disk becomes the recovered disk with an empty header, through moments that all recover to it; memory and disk then agree. |
| `RedoLog.Log.LogWrite` | src/kernel/fs/log.c:214-235 | It panics exactly when no slot is left for one more block or no operation is outstanding; otherwise the block is listed once, counted and pinned on its first listing and absorbed later, and the operation's reservation is charged. |
| `RedoLog.Log.FindLogged` | src/kernel/fs/log.c:225-228 | The absorption loop finds the block's position if and only if it is listed. |
| `RedoLog.Log.BeginOp` | src/kernel/fs/log.c:126-142 | Admission is granted exactly when no commit runs and the log has room, beside what is listed, for all that the active operations and one more could log from scratch; it takes one reservation and changes nothing else. |
| `RedoLog.Log.EndOp` | src/kernel/fs/log.c:146-175 | One operation less; the last one out commits atomically and empties the log, while others may hold blocks that are not logged; any other leaves the disk untouched; contents and locked buffers never change. |
| `RedoLog.Log.Modify` | src/kernel/fs/log.c:205-213 | Changing a locked home block changes the current contents of that block only, and the block may not be released before it is logged. |
| `RedoLog.CommitIsAtomic` | src/kernel/fs/log.c:193-203 | Slots, header, home copies and erased header, in this order, form a history with a single switch from old to new. |
| `RedoLog.CrashAtomicity` | src/kernel/fs/log.c:116-123 | Whichever disk write of a commit is the last before a crash, and however often the recoveries that follow crash, the completed one leaves every home block as before the transaction or every one as after it, and an empty header. |
| `RedoLog.Restart` | src/kernel/fs/log.c:54-65 | Booting on any disk with a usable log yields a valid, idle log with no block locked and a cache that agrees with the recovered disk, and every disk written on the way recovers to the same contents. |
| `RedoLog.MirrorsChanged` | src/kernel/fs/log.c:214-235 | Changing one buffer together with the view of its block keeps cache, disk, pins and locks in agreement for every other block. |
| `LogHistory.Run` | src/kernel/fs/log.c:126-235 | Any run from rest of begin_op, bread, changes, log_write, brelse and end_op as separate calls of any operations, blocks being held across calls and across commits: the log follows the abstract meaning of the calls; call by call, the disks written are recorded: none unless the call ends a transaction, then those of one atomic commit; and after every call the disk recovers to the last transaction that has ended. |
| `LogHistory.DoEnd` | src/kernel/fs/log.c:146-175 | end_op within a run: it writes nothing unless the last operation leaves, and then a commit that switches once from the contents before the transaction to those after it. |
| `LogHistory.DoLog` | src/kernel/fs/log.c:214-235 | log_write within a run of a block that some caller holds: the block is listed once and charged, and the run goes on as its abstract meaning says. |
| `LogHistory.Recovers` | src/kernel/fs/log.c:116-235 | Durability and order: a disk that was on the platter after i calls were done and before the j-th was recovers to the contents at the end of a transaction, none older than the last ended by the first moment and none that ended after the second. |
| `LogHistory.CrashConsistency` | src/kernel/fs/log.c:116-123 | A crash after any disk write of any run, followed by any number of crashes inside recovery, ends with an empty header and exactly the home blocks of the end of some transaction: no transaction that had ended when the disk was written is lost, and none shows that had not ended. |
| `LogHistory.UpdatesCommit` | src/kernel/fs/log.c:126-235 | An operation on an idle log that updates any home blocks, fewer than there are slots and buffers, goes through: exactly one transaction ends, with exactly those updates. |
| `LogHistory.Reboot` | src/kernel/fs/log.c:54-123 | One life and the next boot: the log of this life follows the calls and its disks are recorded; every one of them can be booted; the next log starts from the disk the crash left, idle, with the contents at the end of a transaction, none that had ended by then being lost. |
| `LogHistory.Boots` | src/kernel/fs/log.c:54-235 | Boot after boot, any number of times, each life with its own log, calls and crash at any disk write: every boot starts from the disk the last crash left, its log follows its calls, its disks are recorded, and it begins with the contents at the end of a transaction of the life before, none that had ended by the crash being lost. |
| `LogAdmission.RunsKeepInv` | src/kernel/fs/log.c:126-235 | In every run of begin_op, log_write and end_op by any operations: listed blocks plus unused reservations never exceed LOGSIZE, and an idle log is empty. |
| `LogAdmission.PanicFreeIff` | src/kernel/fs/log.c:219-223 | With nlog = LOGSIZE, log_write's panic is unreachable in every interleaving if and only if operations log at most MAXOPBLOCKS - 1 distinct blocks; at MAXOPBLOCKS three concurrent operations reach it. |
| `LogAdmission.AdmitsIff` | src/kernel/fs/log.c:126-142 | begin_op's test is exact: it admits if and only if no commit runs and, in every log with as many blocks listed and operations active, no writes of those and the new one, each within MAXOPBLOCKS, overflow the log. |
| `BlockMap.MarkKeeps` | src/kernel/fs/fs.c:74-78 | Setting or clearing one bitmap bit together with the block's role keeps "bit set exactly when the block is metadata, in one slot or in hand". |
| `BlockMap.AddressKeeps` | src/kernel/fs/fs.c:383-393 | A fresh block number stored in an inode keeps every block in at most one slot of one inode and the on-disk addresses in agreement. |
| `BlockMap.EntryKeeps` | src/kernel/fs/fs.c:394-401 | The same for an entry of the indirect block. |
| `BlockMap.DropKeeps` | src/kernel/fs/fs.c:416-433 | Emptying a slot of an inode under truncation keeps the rest. |
| `Files.Fs.Balloc` | src/kernel/fs/fs.c:64-86 | It panics exactly when no block is free; otherwise it takes a free block, zeroes it, sets its bit and logs exactly those two blocks, the only ones that change. |
| `Files.Fs.Bfree` | src/kernel/fs/fs.c:89-103 | "freeing free block" is unreachable for a block taken out of its slot; exactly its bit is cleared. |
| `Files.Fs.Bmap` | src/kernel/fs/fs.c:377-405 | The block of any data block of any inode; a mapped one is found without any change, an unmapped one gets a zeroed block, no byte of any file changes, and every block that changes is logged. |
| `Files.Fs.Readi` | src/kernel/fs/fs.c:455-477 | Exactly the slice of the file's contents from off up to its size, nothing when off is past the size or off + n wraps; nothing is allocated, written or logged. |
| `Files.Fs.Writei` | src/kernel/fs/fs.c:486-517 | -1 exactly when off is beyond the size or the file would exceed MAXFILE; otherwise the file is overlaid at off, the size is the larger of the two, no other byte of any file changes, all blocks below the size are mapped; every block that changes, and the inode's, is logged, and the number of blocks logged is bounded both per block written and by the bitmap's size. |
| `Files.Fs.FileWrite` | src/kernel/fs/file.c:149-175 | A write of any length goes through one transaction per chunk. The blocks each logs are all that it changes, at most MAXOPBLOCKS for any file system size and at most 6 plus the number of bitmap blocks; after any number of them the file holds exactly a prefix of the data; all of it is written unless the file would grow too big. |
| `Files.Fs.Itrunc` | src/kernel/fs/fs.c:409-437 | All blocks of the inode and no others become free, the inode is empty, bfree's panic is unreachable, no byte of another file changes; every block that changes and the inode's block are logged, one more than the bitmap has blocks at most. |
| `Files.ContentWritten` | src/kernel/fs/fs.c:486-517 | On contents as byte sequences: the written file is the overlay, every other file's content is the same. |
| `Files.ReadBack` | src/kernel/fs/fs.c:455-517 | Reading back what was written gives it. |
| `Files.LoggedBound` | src/kernel/fs/file.c:149-163 | Data, bitmap, indirect and inode blocks together: at most two per block written plus three, one less when the first block was mapped already, and at most one per block plus the bitmap plus two. |
| `Files.FileWritesFit` | src/kernel/fs/file.c:149-163 | The most that a transaction of filewrite logs keeps the log's panic out of reach, in every interleaving of any operations that log no more, if and only if the bitmap has at most three blocks. |
| `Mkfs.Image.Iappend` | script/mkfs.c:259-301 | Data goes to the end of one file, block by block through direct and indirect addresses, and no other byte of any file changes; it succeeds exactly when the file stays within MAXFILE blocks and its new data and indirect blocks are left in the image, and takes exactly those. |
| `Mkfs.Image.Balloc` | script/mkfs.c:241-255 | The bitmap written last makes the ownership invariant of the kernel hold of the image, and changes no file. |
| `Mkfs.BitmapWritten` | script/mkfs.c:241-255 | A bitmap with exactly the first freeblock bits set is the one the image's slots call for. |
| `Mkfs.AddFile` | script/mkfs.c:130-168 | One file more: its inode, its root entry and its contents, the earlier ones unchanged; it succeeds exactly when the file is not too big and the blocks of the root and the files so far fit. |
| `Mkfs.Make` | script/mkfs.c:69-180 | The image is finished if and only if no file is larger than MAXFILE blocks and the data and indirect blocks of the root and all files fit behind the metadata. Of a finished image: every block is metadata, free or in exactly one slot, as the bitmap says; each file reads as given; the root lists the dots and the files under their cut names, then only empty entries; every file but the root has all blocks below its size, and the root has them if and only if the number of files is not 62 modulo 64. |
| `Mkfs.RootRounded` | script/mkfs.c:170-175 | Rounding the root's size up leaves all blocks below it mapped if and only if its entries do not fill its last block. |
| `Mkfs.RootWithHole` | script/mkfs.c:170-175 | With 62 files the rounded size of the root covers a block that is not there. |
| `Mkfs.HoleReached` | script/mkfs.c:69-180 | mkfs of 62 empty files succeeds, and its root has a block below its size that is not there. |
| `Mkfs.MissingNext` | script/mkfs.c:259-301 | The blocks one round of iappend allocates are the difference of the sizes' block counts. |
| `Directory.Namecmp` | src/kernel/fs/fs.c:521-525 | True exactly when the name cut at the field's length equals the name stored in the field, NUL-terminated or not. |
| `Directory.DecodeEncode` | src/kernel/fs/fs.c:577-579 | An entry written with strncpy reads back as its inode number and the name cut at DIRSIZ. |
| `Directory.AsMapIs` | src/kernel/fs/fs.c:527-553 | With unique names, the entries of a directory and its map are the same thing. |
| `Directory.Linked` | src/kernel/fs/fs.c:555-583 | Overwriting an empty entry, or appending one, adds one name and touches no other. |
| `Directory.DirLookup` | src/kernel/fs/fs.c:527-553 | Zero exactly when no live entry has the cut name; otherwise the inode number and offset of the first that has; with unique names the value of the directory's map; nothing changes. |
| `Directory.FindEmpty` | src/kernel/fs/fs.c:569-575 | The first empty entry, or the end. |
| `Directory.DirLink` | src/kernel/fs/fs.c:555-583 | -1, with nothing changed, exactly when the cut name is in the map; otherwise the entry is in the first empty place or behind the last, the new map is the old one with one more name, names stay unique, no byte of another file changes, and every block that changes is logged. |
| `Paths.Skipelem` | src/kernel/fs/fs.c:587-622 | The first component of the path, cut, and a rest whose components are the remaining ones; none exactly when the path has no component. |
| `Paths.ComponentsFirst` | src/kernel/fs/fs.c:587-622 | The component up to a slash is the first one of splitting at slashes and dropping empty pieces. |
| `Paths.ComponentsOf` | src/kernel/fs/fs.c:587-622 | The components of any names joined by slashes are those names. |
| `Paths.FollowJoin` | src/kernel/fs/fs.c:624-661 | Following a/b is following b from where a leads, for any two paths. |
| `Paths.Namex` | src/kernel/fs/fs.c:624-661 | On the directories of the disk, namex ends, changes nothing and equals folding the directory maps over the components, from the root for a path with a leading slash and from the current directory otherwise, one component short with the last name for the parent form. |
| `PageTable.PushKeeps` | src/kernel/mm/kalloc.c:46-63 | kfree's writes keep the free list, the roles of pages and every table in order. |
| `PageTable.PopKeeps` | src/kernel/mm/kalloc.c:65-82 | kalloc's read of the head keeps them too, and the list is empty exactly when the head is 0. |
| `PageTable.TableKeeps` | src/kernel/mm/vm.c:94-97 | A zeroed page linked into an entry becomes the table there; the pages below a root stay a tree, and the flat map does not change. |
| `PageTable.MapKeeps` | src/kernel/mm/vm.c:156 | Writing a leaf entry changes the flat map at exactly that page number. |
| `PageTable.UnmapKeeps` | src/kernel/mm/vm.c:188 | Clearing it removes exactly that page number. |
| `PageTable.Gone` | src/kernel/mm/vm.c:267-285 | When the root is gone, nothing of the space is left in any table. |
| `Vm.Vm.constructor` | src/kernel/mm/kalloc.c:26-40 | After kinit every whole page between the kernel's end and PHYSTOP is on the free list exactly once. |
| `Vm.Vm.Kfree` | src/kernel/mm/kalloc.c:42-63 | The page becomes the head of the free list; the panic is unreachable for a page in hand. |
| `Vm.Vm.Kalloc` | src/kernel/mm/kalloc.c:65-82 | 0 exactly when nothing is free; otherwise the head of the list, in hand. |
| `Vm.Vm.Walk` | src/kernel/mm/vm.c:71-101 | walk refines the flat map: the entry it returns holds the translation of the page, a miss means the page is not mapped and, with alloc, that memory is exhausted; translations never change, only tables of this space are added; the panic is exactly va >= MAXVA. |
| `Vm.Vm.MapPages` | src/kernel/mm/vm.c:136-163 | Exactly the pages of the range mapped so far get their translations, in order, no other translation changes, and only tables on the way to the range are added; success maps the whole range, failure means no free page is left and a table of the next page missing, the panics are a zero size, a remap or an address past MAXVA. |
| `Vm.Vm.UvmUnmap` | src/kernel/mm/vm.c:165-190 | It succeeds exactly when va is aligned and every page of the range is mapped; exactly the range loses its translations, and its pages go to the free list exactly when asked for. |
| `Vm.Vm.UvmCreate` | src/kernel/mm/vm.c:192-203 | An empty space, or, exactly when no page is free, nothing changed. |
| `Vm.Vm.UvmAlloc` | src/kernel/mm/vm.c:221-247 | The new pages are fresh, zeroed and writable user pages; old pages keep mapping and contents; it fails exactly when fewer pages are free than the new pages and the tables missing for them, or when both sizes are 0, and then the space is back to its old size; no panic. |
| `Vm.Vm.UvmDealloc` | src/kernel/mm/vm.c:249-265 | Exactly the pages above the new size go; the rest keep mapping and contents; no panic. |
| `Vm.Vm.FreeWalk` | src/kernel/mm/vm.c:267-285 | Exactly the tables below and at the given one become free; the leaf panic is unreachable once user pages are unmapped. |
| `Vm.Vm.UvmFree` | src/kernel/mm/vm.c:287-295 | Exactly the pages of the space become free. |
| `Vm.Vm.UvmCopy` | src/kernel/mm/vm.c:297-331 | Success gives the child every page of the parent with equal bytes and flags in pages of its own, and happens exactly when the pages and tables are to be had; failure leaves the child empty; the child's top, the parent and everyone else unchanged; no panic. |
| `Vm.Vm.UvmClear` | src/kernel/mm/vm.c:333-344 | One page loses its user bit; nothing else changes, no byte of the space either. |
| `Vm.Vm.WalkAddr` | src/kernel/mm/vm.c:103-124 | The page's address exactly when the page is mapped, valid and open to user code. |
| `Vm.Vm.CopyOut` | src/kernel/mm/vm.c:346-369 | An overlay of user memory; -1 exactly at the first inaccessible byte, with everything before it written. |
| `Vm.Vm.CopyIn` | src/kernel/mm/vm.c:371-394 | 0 exactly when all bytes are accessible, with exactly those bytes; nothing changes. |
| `Vm.Vm.ProcPagetable` | src/kernel/proc.c:171-200 | A space with only trampoline and trapframe mapped, exactly when three pages are free; otherwise no change in who owns which page, on every failure path. |
| `Vm.Vm.ProcFreePagetable` | src/kernel/proc.c:202-210 | With the tracked size, exactly the pages of the space return to the free list and nothing panics. |
| `Vm.FreedAll` | src/kernel/mm/vm.c:287-295 | Unmapping the user pages and freeing the tables leaves nothing of a space. |
| `Vm.PageOverlaid` | src/kernel/mm/vm.c:346-369 | A copy into one page is an overlay of the whole space's bytes at the virtual address. |
| `Vm.FreeCount` | src/kernel/mm/kalloc.c:42-82 | Whatever an operation does to one space, free pages and pages with a role keep their sum. |
| `Vm.RoomCost` | src/kernel/mm/vm.c:221-247 | In a space with only its top mapped, n pages are to be had exactly when n pages, one table for every 512 and one for every 262144 of them are free. |
| `Processes.Table.AllocProc` | src/kernel/proc.c:104-145 | A process with a trapframe page and a new space, the trampoline and that page mapped at its top, exactly when four pages are free; otherwise no process changed; every process keeps mapping and bytes of all its pages; no panic. |
| `Processes.Table.FreeProc` | src/kernel/proc.c:150-167 | The trapframe, the tables and the user pages of the process go back to the free list; every other process keeps mapping and bytes of all its pages; no panic. |
| `Processes.Table.Grow` | src/kernel/proc.c:250-268 | growproc upwards succeeds exactly when the pages and the tables they lack are free, with zeroed new pages; every process, this one included, keeps mapping and bytes of all its pages; no panic. |
| `Processes.Table.Shrink` | src/kernel/proc.c:250-268 | growproc downwards never fails and never panics; what is left of this process, and all of every other, keeps mapping and bytes. |
| `Processes.Table.Fork` | src/kernel/proc.c:270-319 | A child whose pages are equal copies in pages of its own and whose trapframe, mapped at its top, holds the parent's registers with a0 zero, exactly when the trapframe, its space and the copies with their tables are to be had; otherwise no process changed; parent and all others keep mapping and bytes of all their pages; no panic. |
| `Processes.Table.Run` | src/kernel/proc.c:104-319 | Any number of processes created, grown, shrunk, forked and freed in any order, with kalloc failing anywhere: step by step every operation does exactly what it is to do, no panic is reached, every page is used as at the start or by exactly one live process, and once none is left every page is used as at the start. |
| `Processes.Isolation` | src/kernel/proc.c:104-319 | Over any such run, a process that is not itself grown, shrunk or ended keeps its size, its mapping and every byte of its pages and trapframe, whatever the others do. |
| `UserBytes.NumberBytes` | src/kernel/exec.c:93-99 | The eight bytes of a pointer written by copyout read back as the pointer. |
| `Exec.LoadSeg` | src/kernel/exec.c:132-155 | 0 exactly when n is 0 or the file has n bytes at off, and then user memory is overlaid with those bytes at va; otherwise -1; walkaddr's panic is unreachable. |
| `Exec.LoadHeader` | src/kernel/exec.c:46-59 | A header is accepted exactly when it is no segment, or its sizes neither wrap nor shrink, its address is aligned, the file has its bytes and there is memory for it; then the image grows to its end with its file bytes laid over it. |
| `Exec.EmptySegment` | src/kernel/exec.c:46-59 | A loadable segment without bytes at address 0 needs no memory, and is refused exactly while the image is empty. |
| `Exec.LoadProgram` | src/kernel/exec.c:42-60 | After the loop every byte of the image is that of the last segment that covers it, or 0, and the size is the largest segment end; it succeeds exactly when every header is acceptable and there is memory for the largest end. |
| `Exec.ImageSizeIs` | src/kernel/exec.c:42-60 | The size of an image is the farthest end of its loadable segments. |
| `Exec.ImageByteIs` | src/kernel/exec.c:42-60 | A byte that some segment supplies from the file is that of the last one that does. |
| `Exec.ImageByteZero` | src/kernel/exec.c:42-60 | A byte that no segment supplies is 0. |
| `Exec.PushArgs` | src/kernel/exec.c:79-99 | It succeeds exactly when there are fewer than MAXARG strings and they and the pointer array fit into the stack page, a stack pointer that wraps below 0 included; then each string, NUL included, and each pointer is where the array says, 16-byte aligned, without overlap, and nothing below the page changes. |
| `Exec.FitsIff` | src/kernel/exec.c:79-99 | The arguments fit if and only if there are fewer than MAXARG and the strings with their NULs and the pointer array, each rounded up to 16 bytes, take at most a page. |
| `Exec.MakeStack` | src/kernel/exec.c:68-99 | A guard page closed to user code below an open stack page; the image below keeps its bytes; it succeeds exactly when the two pages are to be had and the arguments fit. |
| `Exec.Build` | src/kernel/exec.c:38-99 | The complete new image, with trampoline and trapframe mapped at its top, exactly when the headers and arguments are acceptable and three pages plus those of the image and its tables are free; otherwise every page is used as before. |
| `Exec.Process.Run` | src/kernel/exec.c:12-130 | All or nothing: on failure page table, size, registers and the use of every page are as before; on success the process has the new image byte for byte as its headers describe it, the arguments on its stack, entry point and stack pointer set, trampoline and trapframe mapped at the top, and the old space is free. It succeeds exactly when the file is an ELF with acceptable headers, the arguments fit, and three pages plus those of the image and its tables are free. |
| `Exec.ReadArg` | src/kernel/exec.c:79-104 | copyin through the new table, first of the pointer and then of the string, gives exactly argv[k] with its NUL. |
| `Exec.GrownBytes` | src/kernel/mm/vm.c:221-247 | Growing a space changes no byte: fresh pages read as zero. |
| `Exec.Guarded` | src/kernel/exec.c:75-77 | Clearing one user bit closes the guard page and no other. |
| `SleepLock.ApplyKeepsInv` | src/kernel/sleeplock.c:21-41 | Every step of acquiresleep, releasesleep, sleep, wakeup, the scheduler, preemption and kill keeps the invariant on lock owners and sleepers. |
| `SleepLock.RunsKeepInv` | src/kernel/sleeplock.c:21-41 | The invariant holds after every sequence of steps of any number of processes. |
| `SleepLock.MutualExclusion` | src/kernel/sleeplock.c:21-41 | In every run at most one process has the sleep lock, and locked and pid say which. |
| `SleepLock.NoLostWakeup` | src/kernel/proc.c:526-573 | In every run, whenever lk->lk is free and locked is 0, no process is asleep on the lock or between sleep's release of lk and its SLEEPING state; kill does not break this. |
| `SleepLock.CallsReturn` | src/kernel/sleeplock.c:21-41 | In every run acquiresleep returns only with the lock, which it found free, and releasesleep only without it; a holder leaves only by releasing. |
| `SleepLock.FreeLockIsTaken` | src/kernel/sleeplock.c:21-31 | In every reachable state in which the lock is free and nobody is changing it, every process inside acquiresleep, asleep ones included, gets it by steps of its own. |
| `SleepLock.LockIsFreed` | src/kernel/sleeplock.c:33-41 | releasesleep, with no lock in its way, ends with the lock free and everyone who slept on it awake. |
| `ExitWait.WaitScans` | src/kernel/proc.c:392-416 | wait's scan passes a slot only when it holds no zombie child. |
| `ExitWait.ExitMoves` | src/kernel/proc.c:321-334 | reparent passes a slot only when it holds no child of the exiting process. |
| `ExitWait.ExitWakes` | src/kernel/proc.c:360-374 | exit passes its parent's slot in wakeup only when the parent is not asleep. |
| `ExitWait.ForkOthers` | src/kernel/proc.c:270-319 | fork touches, besides itself, only a slot that holds no process yet. |
| `ExitWait.ApplyKeepsInv` | src/kernel/proc.c:270-428 | Every step of fork, exit, reparent, wait, sleep, wakeup, kill and the scheduler keeps the invariant on locks, shapes, parents and scans. |
| `ExitWait.RunsKeepInv` | src/kernel/proc.c:270-428 | The invariant holds after every sequence of steps. |
| `ExitWait.NoMissedExit` | src/kernel/proc.c:381-428 | In every reachable state with wait_lock free, no process asleep in wait, or on its way there, has a zombie child. |
| `ExitWait.ParentsLive` | src/kernel/proc.c:321-379 | In every reachable state each process but init has a parent that is neither free nor a zombie. |
| `ExitWait.ReapedByParent` | src/kernel/proc.c:381-428 | A zombie leaves the table by exactly one kind of step: its parent's wait, holding wait_lock, finds it after its last switch to the scheduler, frees the slot and returns. |
| `ExitWait.ParentsMove` | src/kernel/proc.c:270-428 | In every run the parent of a slot changes in three ways: fork links it under wait_lock, an exiting parent gives it to init, the parent's wait frees it as a zombie. |
| `ExitWait.WaitEnds` | src/kernel/proc.c:381-428 | wait returns in exactly these ways: a zombie child freed, a zombie child left because copyout failed, no child at all, or killed. |
| `ExitWait.SleepsForChild` | src/kernel/proc.c:419-427 | A process goes to sleep in wait only if it was not killed and has children, none of them a zombie. |
| `ExitWait.ExitEnds` | src/kernel/proc.c:339-379 | exit ends in a zombie that has no children and whose parent is not asleep in wait or on its way there. |
| `ExitWait.ForkEnds` | src/kernel/proc.c:270-319 | fork ends with a runnable child of its own, with its slot unused again, or after looking at every slot; it passes no unused one. |
| `ExitWait.ZombieIsReaped` | src/kernel/proc.c:381-428 | With wait_lock free and no child locked, a wait that is about to look frees a zombie child, if there is one, by its own steps. |
| `ExitWait.ExitCompletes` | src/kernel/proc.c:321-379 | With no lock in its way exit comes to its end, and every child has init for its parent. |
| `ExitWait.ForkCompletes` | src/kernel/proc.c:270-319 | With no lock in its way and memory enough, fork makes a child whenever a slot ahead is unused. |
| `ExitWait.KilledReturns` | src/kernel/proc.c:419-423 | With no lock in its way a killed process comes back from wait. |
| `ExitWait.KillWakes` | src/kernel/proc.c:575-595 | kill marks a process, and makes it runnable exactly if it sleeps. |
| `Virtio.QueueSlot` | src/kernel/platform/qemu/driver/virtio_disk.c:259-260 | Writing the slot at the index overwrites nothing still unread while fewer than NUM entries are pending, across 16-bit wrap. |
| `Virtio.QueuePush` | src/kernel/platform/qemu/driver/virtio_disk.c:259-265 | Publishing the index adds exactly that slot to the queue, across 16-bit wrap. |
| `Virtio.TwoInFlight` | src/kernel/platform/qemu/driver/virtio_disk.c:187-201 | In-flight chains are disjoint triples whose complement is the free and the held descriptors, so there are at most two. |
| `Virtio.FillKeeps` | src/kernel/platform/qemu/driver/virtio_disk.c:223-257 | Descriptors, header, status, b->disk and info of a new chain keep the ring's invariant. |
| `Virtio.Finds` | src/kernel/platform/qemu/driver/virtio_disk.c:300-308 | The handler has work exactly when the device has answered, for an in-flight chain whose status is 0 and whose buffer is the recorded one: its panic is unreachable. |
| `Virtio.ServeIsRequest` | src/kernel/platform/qemu/driver/virtio_disk.c:223-257 | The device, following the descriptors in memory, transfers exactly the requested block in the requested direction and touches no other buffer, block or status byte. |
| `Virtio.ServeCarries` | src/kernel/platform/qemu/driver/virtio_disk.c:223-257 | Serving a chain brings its block or buffer to where a disk that carries out requests at once has it already, and moves nothing else. |
| `Virtio.ServedHolds` | src/kernel/platform/qemu/driver/virtio_disk.c:271-277 | Of a request that has been served, a read's buffer holds its block and a write's block holds its buffer, both as on a disk that carries out requests at once. |
| `Virtio.FlagClear` | src/kernel/platform/qemu/driver/virtio_disk.c:271-277 | A buffer whose flag is clear has no unfinished request: the device has served its chain with status 0. |
| `Virtio.NoRoom` | src/kernel/platform/qemu/driver/virtio_disk.c:187-201 | alloc3_desc fails only with two requests in flight. |
| `Virtio.Room` | src/kernel/platform/qemu/driver/virtio_disk.c:187-201 | With three descriptors in hand, at most one other request is in flight. |
| `Virtio.Disk.constructor` | src/kernel/platform/qemu/driver/virtio_disk.c:136-138 | All descriptors free and the queues empty: the invariant holds at the start. |
| `Virtio.Disk.AllocDesc` | src/kernel/platform/qemu/driver/virtio_disk.c:143-154 | A free descriptor is taken, or none is free and nothing changes. |
| `Virtio.Disk.FreeDesc` | src/kernel/platform/qemu/driver/virtio_disk.c:156-170 | Both panics are unreachable for a descriptor in hand; it is blank and free again. |
| `Virtio.Disk.FreeChain` | src/kernel/platform/qemu/driver/virtio_disk.c:172-185 | Exactly the three descriptors of the chain are freed. |
| `Virtio.Disk.Alloc3` | src/kernel/platform/qemu/driver/virtio_disk.c:187-201 | Three distinct free descriptors exactly when at most one request is in flight; otherwise everything is as before. |
| `Virtio.Disk.DeviceRuns` | src/kernel/platform/qemu/driver/virtio_disk.c:264-269 | Any actions of the device, at any moment, keep the invariant, only move chains forward, and leave what the chains in flight amount to as it was. |
| `Virtio.Disk.Submit` | src/kernel/platform/qemu/driver/virtio_disk.c:203-269 | Accepted, with three descriptors that were free, exactly when at most one other request is in flight; otherwise nothing changes; the device may act between any two steps; if no other request in flight is for the block, what is in flight now amounts to what it did before followed by this request. |
| `Virtio.Disk.Intr` | src/kernel/platform/qemu/driver/virtio_disk.c:282-315 | Every answered request is completed, b->disk is cleared for those buffers only and never set, and the panic is unreachable, with the device acting between any two steps; what is in flight amounts to the same. |
| `Virtio.Disk.Finish` | src/kernel/platform/qemu/driver/virtio_disk.c:276-279 | After the wait the request has been served: a read's buffer holds the block and a write's block holds the buffer, as long as no block was asked for twice at a time. Its own three descriptors, and no others, are free and blank, and what is left in flight amounts to the same; no panic. |
| `Virtio.Disk.Session` | src/kernel/platform/qemu/driver/virtio_disk.c:203-315 | Any sequence of requests, interrupts, returns of callers whose flag is clear, stores into buffers and device actions from the start: no panic is reached, never more than two requests are in flight, b->disk is set only for buffers in flight, and as long as no block is asked for while a request for it is in flight, every buffer and block outside unserved requests, and with none in flight all of them, hold what they would on a disk that carries out every request at once. |
| `Virtio.Disk.Transfer` | src/kernel/platform/qemu/driver/virtio_disk.c:203-280 | A request on an idle disk whose device acts: when it returns, exactly the transfer asked for has happened. |
| `Virtio.Disk.Device` | src/kernel/platform/qemu/driver/virtio_disk.c:203-269 | The device's actions: the oldest posted chain is taken, a taken one served, a served one answered, and nothing else moves. |
| `Umalloc.Allocator.FindPlace` | src/user/lib/umalloc.c:29-32 | The circular search of free ends, at the one free block behind which the freed block fits. |
| `Umalloc.Allocator.Free` | src/user/lib/umalloc.c:24-44 | The list stays circular, address-ordered, disjoint and fully coalesced; exactly the freed block's bytes move from live to free, into the block just behind freep or freep itself; no header is ever in the payload of a block still live. |
| `Umalloc.Allocator.Morecore` | src/user/lib/umalloc.c:46-61 | Exactly the bytes obtained from sbrk become free, merged or not, and the block holding them is large enough and next on the walk; a refusal changes nothing. |
| `Umalloc.Allocator.Take` | src/user/lib/umalloc.c:75-85 | The block handed out is the end of a free one, overlaps no live block, its bytes are now live, freep is the block before, and no header is in its payload or that of another live block. |
| `Umalloc.Allocator.Malloc` | src/user/lib/umalloc.c:63-90 | The search ends, including after morecore merged its memory into the last block; the block returned is the end of the first block large enough behind freep, has the asked size, was not live and overlaps no live block; the kernel is asked only when no free block is large enough; free plus live bytes are the bytes obtained; no header is read or written in a live payload; failure means every free block is too small and the kernel refused. Stated for every request that a free block can meet, that the kernel refuses, or whose size reaches sbrk unharmed. |
| `Umalloc.FreedList` | src/user/lib/umalloc.c:33-43 | For any place the two merges of free keep the list in order and coalesced, and add exactly the freed bytes. |
| `Umalloc.StopsAtPlace` | src/user/lib/umalloc.c:30-32 | The loop test of free holds exactly at the place for the block, the wrap-around included. |
| `Umalloc.AccountsFreed` | src/user/lib/umalloc.c:24-44 | Freeing moves bytes from live to free and keeps their sum and their disjointness. |
| `Umalloc.AccountsTaken` | src/user/lib/umalloc.c:75-85 | Handing out does the reverse. |
| `Umalloc.CleanTaken` | src/user/lib/umalloc.c:75-85 | No header overlaps the payload of any live block, the new one included. |
| `Umalloc.CleanFreed` | src/user/lib/umalloc.c:33-43 | free writes no header into the payload of a block that stays live. |
| `Umalloc.SearchGoesOn` | src/user/lib/umalloc.c:74-89 | At a block too small the walk either moves strictly on, past only too-small blocks and not past the grown one, or has come around with every block too small. |
| `Umalloc.AskFitsIff` | src/user/lib/umalloc.c:46-61 | morecore asks sbrk for the bytes it will count as obtained if and only if the request is at most 0x7fffffe0 bytes; above that sbrk's int parameter gets another number. |
| `Umalloc.AskFails` | src/user/lib/umalloc.c:46-61 | A request of 4294967295 bytes asks the kernel for 16 and counts 268435457 units. |
| `Grep.MatchHere` | src/user/grep/grep.c:82-94 | Equals the declarative meaning: some division of a prefix of the text into one piece per atom, ending at the end for $. |
| `Grep.MatchStar` | src/user/grep/grep.c:96-104 | The shortest-first loop agrees with "some number of repetitions, then the rest". |
| `Grep.Match` | src/user/grep/grep.c:70-80 | Anchored patterns match at the start, others at any position, including the empty text. |
| `Grep.MatchesCons` | src/user/grep/grep.c:82-104 | A pattern with a first atom matches exactly by giving that atom some piece of the text. |
| `Grep.TextBack` | src/user/grep/grep.c:82-94 | Every pattern text is the spelling of the atoms it is read as. |
| `Grep.PatternBack` | src/user/grep/grep.c:82-94 | Every sequence of atoms in which no single character is followed by a star, and no last one is a dollar, is what its spelling is read as. |
| `Grep.HandleLines` | src/user/grep/grep.c:19-27 | Every complete line in the buffer up to the first NUL is printed exactly when it matches, in order, and the rest is kept. |
| `Grep.Run` | src/user/grep/grep.c:10-34 | For any input and any split into reads, the output is the matching complete lines in order, up to the first line that holds a NUL or that with its newline exceeds 1023 bytes. |
| `Shell.Gettoken` | src/user/sh/sh.c:265-308 | The next token of the line, its exact stretch of characters, and a rest that tokenises to the remaining tokens. |
| `Shell.Peek` | src/user/sh/sh.c:310-320 | Whether the next token starts with one of the characters, with the token sequence unchanged. |
| `Shell.ParseRedirs` | src/user/sh/sh.c:374-397 | The redirections the grammar finds, in order, or an error exactly when a file is missing. |
| `Shell.ParseExec` | src/user/sh/sh.c:415-446 | Accepts exactly what the grammar of simple commands accepts, with the same tree and the same rest; a word list of MAXARGS is an error. |
| `Shell.ParseBlock` | src/user/sh/sh.c:399-413 | The same for a parenthesised command with its redirections. |
| `Shell.ParsePipe` | src/user/sh/sh.c:361-372 | The same for pipelines. |
| `Shell.ParseLine` | src/user/sh/sh.c:344-359 | The same for lists and background commands; parsing ends on every line. |
| `Shell.ParseWhole` | src/user/sh/sh.c:327-340 | An error exactly when the grammar rejects the line, otherwise the grammar's tree, every word on a maximal stretch of word characters. |
| `Shell.ParseCmd` | src/user/sh/sh.c:327-342 | In the line's own buffer: the grammar's tree, and afterwards every argument and file name reads, up to its NUL, exactly as its token. |
| `Shell.Nulterminate` | src/user/sh/sh.c:448-493 | Exactly the ends of the tree's words become NUL; every other character stays. |
| `Shell.WordsRead` | src/user/sh/sh.c:448-493 | No NUL falls inside a word, since each lands on a delimiter or the end, so every word reads as its token. |
| `Shell.Recovered` | src/user/sh/sh.c:344-446 | The parser recovers every tree from its fully parenthesised token form, whatever follows it. |
| `Shell.TokensShow` | src/user/sh/sh.c:265-308 | Tokenising the text of a token sequence gives the sequence back. |
| `Shell.RoundTrip` | src/user/sh/sh.c:265-446 | Parsing the text of the fully parenthesised form of any tree the parser can build gives that tree. |
| `Shell.ParsedRoundTrip` | src/user/sh/sh.c:265-446 | Whatever the parser makes of a line is such a tree, so its parenthesised form parses to the same tree. |
| `ShellGrammar.ParseIff` | src/user/sh/sh.c:344-446 | The parser accepts exactly the spellings of texts (pipelines with any number of ampersands, joined by semicolons, of simple commands with arguments and redirections in any order and of groups with redirections), and gives each the text's meaning. |
| `ShellGrammar.LineIff` | src/user/sh/sh.c:265-446 | The same for lines of characters: with any white space that keeps the tokens apart. |
| `ShellGrammar.SpelledRead` | src/user/sh/sh.c:265-308 | Tokens with any white space between them, none where they do not stick, are read as those tokens. |
| `ShellGrammar.LineIsSpelled` | src/user/sh/sh.c:265-308 | Every line is its tokens with white space between them. |
| `ShellGrammar.BareParses` | src/user/sh/sh.c:265-446 | Every tree the parser can build is what it makes of the tree's text with parentheses only where needed: a & ; b and a | b | c and a < x > y stay bare. |
| `ShellGrammar.BackgroundThenList` | src/user/sh/sh.c:344-359 | a & ; b is a list of a in the background and b. |
| `ShellGrammar.RedirectionsStack` | src/user/sh/sh.c:374-397 | a < x > y redirects output around the input. |
| `ShellGrammar.PipesNest` | src/user/sh/sh.c:361-372 | a | b | c nests to the right. |

## Left out

- RedoLog.Log.Commit: a commit is one step; blocks may be held across it but not taken or released inside it. A commit that would have to wait for the lock of a logged block is not started.
- RedoLog.Log.EndOp: the same for the commit of the last end_op.
- LogHistory: a call that the source would answer with a panic, or that has to wait, is not made.
- Files: a user copy that fails inside writei or readi, the on-disk encoding of inodes, inode types and link counts, and the inode cache (iget, ilock, iput, ialloc).
- Files.Fs.FileWrite: each chunk is one transaction of the block layer; its blocks are collected there and not passed through the log's class.
- Directory: reading and writing entries goes through readi and writei of a directory whose blocks are all mapped.
- Paths.Namex: which inodes are directories is a parameter, and every directory reachable must hold unique names and existing inodes.
- Mkfs: host files and their names are parameters; the program's exit on a read past the end of the image is the result false; the superblock's contents are not modelled.
- Mkfs.Make: at most NINODES - 2 files are assumed, which the program does not check.
- Vm: kvmmake and the kernel's own table, uvminit, copyinstr, and growproc's 32-bit size arithmetic.
- Vm.Vm.UvmUnmap: whether the pages of the range are owned by the space must agree with do_free, as it does at every call.
- Exec: reading the ELF and program headers from the inode; they are given decoded. The process name is not set.
- Exec.PushArgs: exactly MAXARG arguments, for which ustack has no place for the null at its end, are excluded; the system call never hands them over.
- Exec.MakeStack: the same.
- Exec.Build: the same.
- Exec.Process.Run: the same.
- SleepLock: spin locks are atomic test-and-set; interrupts and push_off are not modelled. Fairness is not claimed.
- ExitWait: open files, the current directory and the exit status; init is slot 0 and does not exit.
- Virtio: the device registers and virtio_disk_init; memory fences; a used-ring slot and its index are written in one device step. The device always answers with status 0.
- Virtio.Disk.Submit: the driver's waiting for a free descriptor is a refusal that changes nothing, to be tried again.
- Umalloc.Allocator.Malloc: a request above 0x7fffffe0 bytes for which the kernel is asked and grants something is not stated; the two members named above say why.
- Shell: running commands and reading lines. The parser's nodes are values, so the sharing of an exec node by its redirections is a list kept beside it.
- Grep: opening files; what is printed is a result.
- Trap entry, interrupts, UART and console, pipes, system calls, the spin lock implementation, the small user programs and the build scripts: hardware effects or simpler than what is here.
