# A verified model of a small RISC-V teaching kernel

The kernel keeps files on a block device through a buffer cache, runs processes in Sv39 address
spaces, talks to its disk through a virtio queue, and joins processes with pipes and mailboxes; a
host tool builds its disk image and a small C library serves its programs. This project models
those parts in Dafny, in the form the code has (objects whose fields the methods update, loops
over arrays), and proves what they are for. `dafny verify dfyconfig.toml` checks everything.

## How it is built

* **Files.** `BufferCache` is the ring of 30 buffers over a device, and `CacheRuns` follows runs of
  its calls with any number of buffers held. `FsLayout` gives the device a
  typed view (bitmap, inodes, data blocks), `Ownership` says what the block maps mean (which inode
  owns which block, what bytes a file has), and `FileSystem` proves the operations of fs.c against
  it through the cache. `Directory` adds names. `Mkfs` builds an image and shows which images
  satisfy the kernel's invariant. `FileRuns` puts them together: whole runs of file operations, with
  any files open, refine byte sequences kept by inode number, starting from a built image.
* **Memory.** `PageTable` is the three-level tree stored in physical pages, with a role for every
  page in use; `VirtualMemory` holds the allocator and the operations of vm.c; `AddressSpaces`
  runs them over the tables of any number of processes, kernel pages included. How many free pages a
  call takes is counted exactly.
* **Devices and processes.** `Virtio` is the driver, device and interrupt handler as atomic steps
  in any order. `Pipes` and `Mailboxes` are the rings; other processes act at every yield.
  `FileTable` counts references over any run of the descriptor calls. `Scheduler` is the pool and
  the round-robin loop. `Processes` puts pool, files and memory together for fork.
* **User library.** `Strings` has the word-at-a-time routines, `Numbers` printing and parsing of
  integers. `Bytes` holds little-endian integers and bit access used throughout.

Most panics are outcomes of a method, and its contract says when they happen. Those of kfree, walk,
uvmunmap, uvmcopy, free_desc and the disk interrupt are not: the demands of the methods rule them
out, and the runs of `AddressSpaces` and `Virtio` meet those demands. Contents of user memory that a
call copies in, how much a copy out can deliver, and which page `kalloc` hands to a pipe are
parameters. `hide` statements only keep proofs short.

## What the code does differently from what it is for

* At boot every buffer is tagged (device 0, block 0), so keys are unique only for other devices;
  the root device is 1.
* `writei` releases a changed buffer unwritten when copy-in fails (os/kernel/fs.c:325-328). The
  cache then differs from the device exactly when the partial bytes differ from what the file had
  there (`Writei`, with a failing call in `WriteUnreadable`).
* `mkfs` rounds the root's size up by a block even when it is a multiple (os/nfs/fs.c:137-141), so
  an image with a multiple of 64 files, none included, has a hole in its root (`RoundHoles`, `BuildEmpty`). It
  never checks inode numbers: 198 files are the most whose inodes the kernel scans.
* `dirunlink` compares only the length of the given name and does not skip unused slots
  (os/kernel/fs.c:416-421); `UnlinkIsRemoval` says exactly when it removes the right entry. It also keeps
  the reference its lookup took (os/kernel/fs.c:411).
* `mappages` leaves a mapped prefix on failure (os/kernel/vm.c:130-144), and `freewalk` does not
  check for leaves (os/kernel/vm.c:263-265), so `uvmfree` demands that every frame of the
  tree is mapped below the size; `AddressSpaces` shows that every run meets the demand.
* `sys_pipe` does not look at what `filealloc` and `fdalloc` return and leaves both files
  referenced when `kalloc` fails (os/kernel/syscall.c:78-101); `CountsExact` states what follows.
* `sys_close` never closes descriptor 0 (os/kernel/syscall.c:142-143).
* `fork` with a full pool takes the parent for the child (os/kernel/proc.c:218-221); its `uvmcopy`
  onto itself fails for every process that has memory (`Spaces.CopyOnto`), so nothing happens. A child
  whose memory could not be copied stays in its slot for ever.
* `wait`, re-entered after it blocked, scans again; here that is the next call of the process.

## Model

| member | source | states |
|---|---|---|
| `BufferCache.UnlinkKeepsRing` | os/kernel/bio.c:93-94 | taking any node but the head out of the doubly linked ring leaves a ring of the others, in the same order, also when its neighbours coincide |
| `BufferCache.InsertKeepsRing` | os/kernel/bio.c:33-36 | the four link stores of binit and brelse put a new node right after the head and leave a ring |
| `BufferCache.ReleaseKeepsRecency` | os/kernel/bio.c:89-100 | moving a buffer to the front keeps the list a permutation of all buffers sorted by most recent final release |
| `BufferCache.RecycleKeepsKeys` | os/kernel/bio.c:54-62 | giving an unreferenced buffer a block no buffer holds keeps (device, block) keys unique among buffers with device other than 0 |
| `BufferCache.HeldAfter` | os/kernel/bio.c:43-65 | changing one buffer changes the record of which blocks are held, and how often, at that buffer only |
| `BufferCache.StaleAfter` | os/kernel/bio.c:83-85 | a change of one buffer and of the device at its block affects only whether that block is out of step with the device |
| `BufferCache.ReadEffect` | os/kernel/bio.c:72-80 | what bread leaves: one more reference to one block, no held buffer changed, nothing newly out of step, and the device bytes when the block is in step |
| `BufferCache.Cache.Binit` | os/kernel/bio.c:27-38 | binit links all buffers into one ring, in the order of a cache in which none was released |
| `BufferCache.Cache.Find` | os/kernel/bio.c:45-52 | the forward scan finds the block exactly when some buffer holds it |
| `BufferCache.Cache.FindVictim` | os/kernel/bio.c:54-63 | the backward scan finds an unreferenced buffer that was released least recently, and fails only when every buffer is referenced |
| `BufferCache.Cache.Get` | os/kernel/bio.c:43-65 | bget: the buffer of the block gains a reference, or the least recently released unreferenced one is recycled; the panic happens if and only if no buffer holds the block and all are referenced |
| `BufferCache.PinnedStays` | os/kernel/bio.c:54-80 | bread does not recycle the buffer released last while another is free, so its unwritten bytes stay in the cache |
| `BufferCache.Cache.Bread` | os/kernel/bio.c:72-80 | bread fails if and only if no buffer holds the block and all are referenced; otherwise that buffer gains a reference, or the one unreferenced longest is filled from the device; the bytes of a block that is in step are the device's |
| `BufferCache.Cache.Bwrite` | os/kernel/bio.c:83-85 | the device takes the bytes of the held buffer, which is then in step; no other block changes |
| `BufferCache.Cache.Unlink` | os/kernel/bio.c:93-94 | the two stores of the unlink realise removal of the node from the ring, for every aliasing of neighbours |
| `BufferCache.Cache.RelinkFront` | os/kernel/bio.c:95-98 | the four stores of the relink realise insertion right after the head |
| `BufferCache.Cache.MoveFront` | os/kernel/bio.c:91-99 | after the last release the buffer is first in the list and the most recent; the ring and the order are sound |
| `BufferCache.Cache.Brelse` | os/kernel/bio.c:89-100 | one reference less; the list order changes only on the last release |
| `CacheRuns.LegalIs` | os/kernel/bio.c:72-100 | the runs considered are all those in which a block that is changed, written or released was read more often than released before |
| `CacheRuns.RoomFor` | os/kernel/bio.c:43-65 | in terms of the calls made so far: bget panics exactly when NBUF other blocks are held |
| `CacheRuns.AgreesFetched` | os/kernel/bio.c:54-80 | a bread loses the unwritten bytes of at most the one block whose buffer it recycles |
| `CacheRuns.Do` | os/kernel/bio.c:43-100 | one bread, change, bwrite or brelse, with any number of buffers held, shows the device block with the unwritten bytes over it and panics only when there is no room |
| `CacheRuns.Replay` | os/kernel/bio.c:43-100 | any run of bread, change, bwrite and brelse follows the device with unwritten bytes per block, up to the exact panic; only the unwritten bytes of a block nobody holds can get lost |
| `CacheRuns.DisciplinedRun` | os/kernel/bio.c:43-100 | when no block is released for the last time with unwritten bytes, nothing is ever lost: every call shows, and the device gets, what direct device access would |
| `FsLayout.ReadWriteSame` | os/kernel/fs.c:128-139 | a dinode written into its slot of an inode block reads back unchanged |
| `FsLayout.SuperBytes` | os/kernel/fs.h:24-33 | the superblock byte by byte: the magic number in bytes 0 to 3, then the size, the number of inodes and the two starts in little-endian words |
| `FsLayout.DinodeBytes` | os/kernel/fs.h:45-50 | an inode on disk byte by byte: the type in bytes 0 and 1, six bytes of padding, the size from byte 8, the pointers from byte 12, little-endian |
| `FsLayout.StoredBytes` | os/kernel/fs.c:128-139 | the stores of iupdate put the fields into exactly these bytes and leave every other byte of the block |
| `FsLayout.ViewBytes` | os/kernel/fs.h:53-62 | where things are: inode i in slot i % 16 of block inodestart + i / 16, bit b of the bitmap in bit b % 8 of its byte of block bmapstart + b / 8192, data after the bitmap |
| `FsLayout.BitWrite` | os/kernel/fs.c:63-67 | setting or clearing one bit of a bitmap block changes that bit of the bitmap and nothing else on the device |
| `FsLayout.InodeWrite` | os/kernel/fs.c:128-139 | writing one dinode slot changes that inode and nothing else on the device |
| `FsLayout.DataWrite` | os/kernel/fs.c:43-49 | writing a block after the metadata changes that data block only |
| `Ownership.OwnedMeansPartition` | os/kernel/fs.c:54-92 | the invariant in terms of the device alone: the set bits are exactly the metadata blocks and the blocks some inode reaches directly, through its indirect block or as that block, and none is reached twice |
| `Ownership.AllocKeepsOwned` | os/kernel/fs.c:222-250 | storing a freshly allocated block in any empty pointer keeps global ownership |
| `Ownership.EntryBytes` | os/kernel/fs.c:238-241 | an indirect block byte by byte: entry j is the little-endian word at byte 4 j |
| `Ownership.AllocBytes` | os/kernel/fs.c:222-250 | handing out a zeroed block, direct or through the indirect block, changes no byte of any file |
| `Ownership.AllocGrows` | os/kernel/fs.c:222-250 | allocation leaves every existing pointer and every byte of every file where it was |
| `Ownership.AllocSlots` | os/kernel/fs.c:222-250 | allocation changes exactly one block pointer of one inode |
| `Ownership.AllocProvides` | os/kernel/fs.c:222-250 | allocation clears one bit less: the pointer is there, one block fewer is free and no other pointer of the inode changes |
| `Ownership.FreeKeepsOwned` | os/kernel/fs.c:80-92 | the block behind a pointer has its bit set, so bfree cannot hit its panic, and clearing bit and pointer keeps ownership |
| `Ownership.DataWriteKeepsOwned` | os/kernel/fs.c:313-342 | overwriting a data block that is not an indirect block changes no block pointer |
| `Ownership.PatchedByte` | os/kernel/fs.c:323-331 | overwriting part of one block of one file changes exactly those bytes of that file and no byte of any other |
| `Ownership.StoredPatch` | os/kernel/fs.c:322-332 | one more chunk extends the bytes stored so far by exactly that chunk |
| `Ownership.StoredDone` | os/kernel/fs.c:313-342 | once all chunks are stored, extending the size makes the file its old bytes with the new ones spliced in, all other files the same, and the invariant holds |
| `Ownership.LacksStep` | os/kernel/fs.c:319-332 | supplying the blocks of a range one after the other, each with the indirect block if that is absent, takes as many blocks as the whole range lacks |
| `FileSystem.EffFreePretend` | os/kernel/fs.c:264-275 | the indirect loop of itrunc leaves freed entries in the block; giving up the block afterwards is still freeing a pointer of a view in which they read 0 |
| `FileSystem.FreshInv` | os/kernel/fs.c:104-123 | a free inode owns nothing, so making it an empty file keeps the invariant and every other file |
| `FileSystem.EmptiedInv` | os/kernel/fs.c:253-279 | an inode without pointers becomes an empty file; the invariant and every other file stay |
| `FileSystem.Fsinit` | os/kernel/fs.c:25-39 | the superblock is read from block 1; the panic if and only if its magic number is wrong, otherwise a sound file system with no inode in use |
| `FileSystem.FileSys.Bzero` | os/kernel/fs.c:43-49 | one data block becomes zero; no buffer stays held |
| `FileSystem.FileSys.BallocIn` | os/kernel/fs.c:60-73 | one round of the outer loop: the first clear bit of one bitmap block is set and that block zeroed, or all bits of it were set |
| `FileSystem.FileSys.Balloc` | os/kernel/fs.c:54-76 | the lowest free block is marked and zeroed; the panic only when every block is in use; buffers are released on all paths |
| `FileSystem.FileSys.Bfree` | os/kernel/fs.c:79-92 | the bit is cleared; the panic if and only if it was clear already |
| `FileSystem.FileSys.Iupdate` | os/kernel/fs.c:128-139 | the device inode becomes the in-memory one and nothing else changes; a pinned block out of step stays in the cache |
| `FileSystem.FileSys.BallocInto` | os/kernel/fs.c:228-229 | a direct pointer or the indirect pointer gets a fresh block and ownership is kept |
| `FileSystem.FileSys.AddEntry` | os/kernel/fs.c:240-243 | an entry of the held indirect block gets a fresh block and the buffer is released |
| `FileSystem.FileSys.Bmap` | os/kernel/fs.c:222-250 | the block of the file at bn, allocated if absent; nothing else changes; it panics if and only if fewer blocks are free than that block and the indirect block lack, and otherwise takes exactly those |
| `FileSystem.FileSys.Readi` | os/kernel/fs.c:284-304 | delivers the slice of the file at the offset, cut at its end; 0 beyond the end or on overflow; -1 if and only if the destination takes fewer bytes, and then exactly the whole chunks that fit; changes nothing on the device; two free buffers are enough and all are released |
| `FileSystem.FileSys.WriteChunk` | os/kernel/fs.c:322-332 | one block-sized piece of a write, stored whole; when copy-in fails the block on the device is untouched and the cache is out of step exactly when the partial bytes differ |
| `FileSystem.FileSys.Abandon` | os/kernel/fs.c:325-328 | releasing a changed buffer without writing it leaves the cache in step if and only if the bytes are the device's |
| `FileSystem.ShortChunk` | os/kernel/fs.c:323-328 | overwriting part of a file's block with some bytes leaves it as it is if and only if the file had those bytes there |
| `FileSystem.FileSys.Writei` | os/kernel/fs.c:313-342 | splices the bytes that could be copied into the file, in whole chunks; -1 and no change when the offset is past the end or the file would be too large; every other inode keeps its contents; afterwards cache and device agree on every block if and only if the readable part of the chunk that failed was what the file had there, and otherwise on all but that chunk's block; panics if and only if the blocks that the range lacks, the indirect block counted once, are more than the clear bits, and otherwise takes exactly those |
| `FileSystem.FileSys.WriteUnreadable` | os/kernel/fs.c:325-328 | a write that answers 0 and changes no file, after which the cache shows a byte the device does not have |
| `FileSystem.FileSys.Finish` | os/kernel/fs.c:333-342 | size and inode are written back and the invariant is restored |
| `FileSystem.FileSys.TruncEntries` | os/kernel/fs.c:263-272 | every listed block is freed exactly once |
| `FileSystem.FileSys.Itrunc` | os/kernel/fs.c:253-279 | the file becomes empty and owns no block; other files are untouched; bfree never panics |
| `FileSystem.FileSys.Iget` | os/kernel/fs.c:145-168 | the entry of the inode gains a reference, or the first free entry is taken; the panic if and only if neither exists |
| `FileSystem.FileSys.Ivalid` | os/kernel/fs.c:179-193 | the in-memory inode is loaded from the bytes of its slot on the device; the panic if and only if the inode is free |
| `FileSystem.FileSys.Iput` | os/kernel/fs.c:202-211 | one reference less |
| `FileSystem.FileSys.Ialloc` | os/kernel/fs.c:104-123 | the lowest free inode from 1 on becomes an empty file of the type, held in the entry iget picks; panics only when no inode or no in-memory entry is free |
| `Directory.Strncmp` | os/kernel/fs.c:358 | 0 exactly when the two C strings agree in their first n bytes |
| `Directory.Strncpy` | os/kernel/fs.c:390 | the name field holds the same string, cut at 14 bytes |
| `Directory.LinkIsUpdate` | os/kernel/fs.c:373-396 | adding an entry for an absent name is map update on names cut to 14 bytes, and live names stay distinct |
| `Directory.UnlinkIsRemoval` | os/kernel/fs.c:405-431 | dirunlink of a present name is map removal if and only if no earlier slot, used or not, holds a name that begins with the given one; names stay distinct either way |
| `Directory.UnlinkWrongEntry` | os/kernel/fs.c:416-421 | a directory in which removing "a" removes "ab" instead |
| `Directory.RunRefines` | os/kernel/fs.c:346-431 | over any run of links and unlinks the entries look up as a map from names, cut to 14 bytes, to inode numbers, as long as no removal meets an earlier slot whose name begins with the one to remove |
| `Directory.SpliceEntry` | os/kernel/fs.c:388-394 | writing 16 bytes at a multiple of 16 changes or appends one entry |
| `Directory.DirentBytes` | os/kernel/fs.h:67-70 | a directory entry byte by byte: the inode number in two bytes, the name in the other fourteen |
| `Directory.Scan` | os/kernel/fs.c:347-369 | finds the first used entry whose name agrees in 14 bytes |
| `Directory.Dirlookup` | os/kernel/fs.c:347-369 | null if and only if the map has no such name, otherwise the in-memory inode of the number it maps to, with one more reference and no other reference changed; the panic if and only if every entry is in use and none names that inode |
| `Directory.Dirlink` | os/kernel/fs.c:373-396 | -1 and no change when the name is there; otherwise the entry goes to the first unused slot or the end, and no other file changes; no in-memory inode keeps a reference; the panic if and only if the lookup panics, or the slot is past the largest file or lacks more blocks than are free |
| `Directory.Dirunlink` | os/kernel/fs.c:405-431 | clears the slot its comparison finds, changes nothing else, and -1 exactly when the name is absent; the inode found keeps one reference too many; the panic if and only if the lookup panics |
| `Directory.RunDir` | os/kernel/fs.c:346-431 | any list of dirlink and dirunlink calls on a directory of a file system, up to a panic of the next call for its exact reason: the directory looks up as the map with the same changes, every call answers as the map does, also before a panic, and no other inode changes |
| `FileRuns.PickIs` | os/kernel/fs.c:145-168 | iget answers with the entry open on the inode, or else the first unused one, or panics |
| `FileRuns.Do` | os/kernel/fs.c:104-342 | one create, open, write, read, truncate or close, with any number of files open, does to files and entries what the specification says, or panics, if and only if an inode or entry is missing or the range to write lacks more blocks than are free |
| `FileRuns.Run` | os/kernel/fs.c:104-342 | any run of these operations, with any files open from one to the next, up to the first panic and its exact reason, refines the same run on byte sequences kept by inode number and a table of open files, results included |
| `FileRuns.ReadAfterWrite` | os/kernel/fs.c:284-342 | a read of the range just written, through the same open file or another on that inode, returns the bytes written |
| `FileRuns.ReadAfterReopen` | os/kernel/fs.c:145-342 | bytes written are still there after the file was closed and opened again |
| `FileRuns.WriteElsewhere` | os/kernel/fs.c:313-342 | every byte outside the range written, in that file and in all others, is unchanged |
| `FileRuns.BuildBootRead` | os/nfs/fs.c:66-145 | an image built from files, booted, opened and read: it is built if and only if the files fit, and then any range of file k read through inode 2 + k is that range of its pieces put together |
| `FileRuns.BuildEmpty` | os/nfs/fs.c:136-141 | with no files the builder succeeds and the image has a hole in its root, so it is not what the kernel takes for granted |
| `Mkfs.MissingAtEnd` | os/nfs/fs.c:222-244 | at the end of a file exactly the blocks are missing that one byte more takes by the closed form ceil(size / 1024), plus 1 above 12 blocks |
| `Mkfs.TakeEntry` | os/nfs/fs.c:235-244 | storing freeblock++ in the indirect block is the same step as the kernel's allocation |
| `Mkfs.SuperOnDisk` | os/nfs/fs.c:83-104 | the superblock on an image word by word |
| `Mkfs.Stripped` | os/nfs/fs.c:109-116 | main accepts a path if and only if it has no slash but that of a leading "target/", which it strips |
| `Mkfs.NamedAs` | os/nfs/fs.c:109-130 | for a name without a slash, the name and the name under "target/" are both accepted, and the entry holds the name, cut to 14 bytes or padded with zeros |
| `Mkfs.RootEntry` | os/nfs/fs.c:108-130 | entry k of the root of a finished image is inode 2 + k under that name |
| `Mkfs.Image.constructor` | os/nfs/fs.c:83-104 | zeroed sectors and a superblock the kernel reads back, with the kernel invariant |
| `Mkfs.Image.MapBlock` | os/nfs/fs.c:226-244 | the block for fbn, handed out if absent; it fails if and only if the missing blocks do not fit on the device |
| `Mkfs.Image.Winode` | os/nfs/fs.c:158-168 | one inode of the image is replaced and no other |
| `Mkfs.Image.Iappend` | os/nfs/fs.c:216-255 | the bytes are appended to that file and every other file is unchanged; the invariant holds; it fails if and only if the file gets too large or the blocks, counted in closed form, do not fit |
| `Mkfs.Image.Ialloc` | os/nfs/fs.c:192-201 | the next inode becomes an empty file of the type |
| `Mkfs.Image.Balloc` | os/nfs/fs.c:203-212 | the bitmap block marks exactly the blocks handed out, and nothing else of the view changes |
| `Mkfs.Image.AddFile` | os/nfs/fs.c:108-134 | one file: its entry is appended to the root and its inode holds its pieces put together; it succeeds if and only if the name has no slash, the file is not too large and the blocks fit |
| `Mkfs.RoundHoles` | os/nfs/fs.c:136-141 | rounding the root's size leaves a hole if and only if its entries fill whole blocks, no entries included |
| `Mkfs.Image.Populate` | os/nfs/fs.c:106-145 | succeeds if and only if no name has a slash, no file is too large and metadata, root and files take at most 1000 blocks; blocks 16 to freeblock then each have exactly one owner, file k is inode 2 + k, the root lists the files and then unused entries; the root has no hole, and the kernel's invariant holds, if and only if the number of files is not a multiple of 64 |
| `PageTable.IndicesInjective` | os/kernel/riscv.h:306-321 | the three 9-bit indices determine the virtual page below MAXVA |
| `PageTable.PteBytes` | os/kernel/riscv.h:324-325 | a page-table entry byte by byte: entry i is the little-endian number in bytes 8 i to 8 i + 7 |
| `PageTable.HardwareWalk` | os/kernel/riscv.h:315-318 | the translation used here is the hardware's: three entries chosen by bits 38-30, 29-21 and 20-12 of the address, the first two without permission bits |
| `PageTable.SlotsDistinct` | os/kernel/vm.c:60-85 | different virtual pages or different tables have different leaf slots |
| `PageTable.AddNode` | os/kernel/vm.c:73-80 | hanging a zeroed table below an empty entry changes no translation of any table |
| `PageTable.SetLeaf` | os/kernel/vm.c:139 | writing a leaf changes exactly one translation and keeps the trees disjoint |
| `PageTable.ClearLeaf` | os/kernel/vm.c:169 | clearing a leaf removes exactly one translation |
| `PageTable.Detach` | os/kernel/vm.c:254-268 | cutting off a child table splits the tree in two and moves no other page |
| `PageTable.ReachedStep` | os/kernel/vm.c:60-85 | mapping one page more adds exactly the tables its block of 512 pages and its block of 512 tables still lack |
| `PageTable.TopTables` | os/kernel/vm.c:60-85 | the tables a copy of k pages takes, in closed form |
| `VirtualMemory.Machine.constructor` | os/kernel/kalloc.c:18-32 | kinit frees every page of the range once |
| `VirtualMemory.Machine.Kfree` | os/kernel/kalloc.c:39-52 | the page goes to the head of the free list, filled with ones after its link, and out of use; it was in use, so no page is freed twice |
| `VirtualMemory.Machine.Kalloc` | os/kernel/kalloc.c:58-70 | the first free page leaves the list, filled with fives, or 0 if and only if the list is empty; every translation stays |
| `VirtualMemory.Machine.Walk` | os/kernel/vm.c:60-85 | the leaf slot of the address; translations never change; with allocation it takes exactly the missing tables from the free list, and fails if and only if there are too few pages |
| `VirtualMemory.Machine.Mappages` | os/kernel/vm.c:126-146 | exactly k pages are mapped; it returns 0 if and only if no page of the range is mapped and there is a free page for each missing table; on -1 the mapped prefix stays |
| `VirtualMemory.Machine.AddFrame` | os/kernel/vm.c:203-213 | one new frame: it is mapped if and only if the page was not and there is a free page for it and each missing table; otherwise nothing but tables stays |
| `VirtualMemory.Machine.Uvmunmap` | os/kernel/vm.c:151-171 | exactly the requested pages are unmapped, and freed when asked |
| `VirtualMemory.Machine.Uvmcreate` | os/kernel/vm.c:176-189 | an empty table, or 0 if no page is free |
| `VirtualMemory.Machine.Uvmalloc` | os/kernel/vm.c:194-216 | the pages between the sizes become new zeroed user frames if and only if none was mapped and the free list has a page for each and for each missing table, which is what it takes; every page then carries exactly the flags valid, readable, writable, executable and user, and every byte below the new size is readable to the user and 0; on failure every translation is as before and the frames are back |
| `VirtualMemory.Machine.Uvmdealloc` | os/kernel/vm.c:223-233 | the pages between the sizes are unmapped and freed |
| `VirtualMemory.Machine.Uvmcopy` | os/kernel/vm.c:289-316 | the child has each page's bytes and flags in frames of its own and the parent is unchanged, if and only if the child's pages were not mapped and the free list has enough pages; on failure every translation is as before; also for a table copied onto itself |
| `VirtualMemory.NotOntoItself` | os/kernel/vm.c:289-316 | a table whose pages are present has no room for a copy of itself |
| `VirtualMemory.Machine.Freewalk` | os/kernel/vm.c:254-268 | a table without leaves goes back page by page: exactly the pages of its tree, each once |
| `VirtualMemory.Machine.Uvmfree` | os/kernel/vm.c:272-276 | exactly the pages of this address space go back, tables and frames; other tables translate as before |
| `VirtualMemory.Machine.Walkaddr` | os/kernel/vm.c:91-107 | the page behind an entry with the valid and the user bit, below MAXVA, and otherwise 0 |
| `VirtualMemory.Machine.Copyin` | os/kernel/vm.c:345-363 | the bytes of user memory across page boundaries; a failure stops at the first page that is not readable |
| `VirtualMemory.Machine.Copyout` | os/kernel/vm.c:322-340 | user memory of this table holds the bytes copied and all other user bytes of every table are unchanged; on failure the prefix up to the unmapped page was written |
| `VirtualMemory.Machine.Copyinstr` | os/kernel/vm.c:369-401 | the string up to its NUL, or max bytes, or -1 at the first unreadable page |
| `VirtualMemory.MappedIsUpdate` | os/kernel/vm.c:126-146 | mappages is map update at the requested pages for every table and page |
| `VirtualMemory.UnmappedIsRemoval` | os/kernel/vm.c:151-171 | uvmunmap is map removal at the requested pages for every table and page |
| `VirtualMemory.RolledBack` | os/kernel/vm.c:203-215 | filling pages and then unmapping them leaves every translation as it was |
| `VirtualMemory.GrownIsSame` | os/kernel/vm.c:60-85 | tables left behind by a call that ran out of memory change no translation |
| `VirtualMemory.UserPagesDistinct` | os/kernel/vm.c:322-340 | two user pages never share a frame |
| `AddressSpaces.OwnedOnce` | os/kernel/vm.c:126-146 | a frame belongs to one mapping of one address space |
| `AddressSpaces.FixedNotOwned` | os/kernel/proc.c:57-82 | the trampoline and trapframe pages at the top of every space are mapped and belong to no user mapping |
| `AddressSpaces.Spaces.MakeTable` | os/kernel/proc.c:57-82 | proc_pagetable: a table with the two kernel pages and nothing else, which takes three pages; the panic if and only if there are fewer |
| `AddressSpaces.Spaces.DoGrow` | os/kernel/vm.c:194-216 | growing one space keeps every space exactly its pages [0, size) and the two kernel pages, all of them open to the user and new ones zero; it succeeds if and only if the new size ends below the kernel pages and there is a free page for each frame and missing table |
| `AddressSpaces.Spaces.DoShrink` | os/kernel/vm.c:223-233 | shrinking frees exactly the pages given up |
| `AddressSpaces.Spaces.DoFork` | os/kernel/proc.c:211-231 | the memory part of fork: a child in which the user reads at every address what the parent has, if and only if 3 + k pages and the closed-form number of tables are free, which is what it takes; with fewer an empty child, with fewer than three a panic |
| `AddressSpaces.Spaces.CopyOnto` | os/kernel/proc.c:217-228 | uvmcopy of a space that has pages onto itself fails and changes no translation |
| `AddressSpaces.Spaces.DoFree` | os/kernel/proc.c:86-92 | proc_freepagetable meets the demands of uvmunmap and uvmfree, returns exactly the pages of that space, and keeps the others |
| `AddressSpaces.Spaces.Run` | os/kernel/proc.c:57-92 | any run of create, grow, shrink, fork and free has the stated effect of each call on sizes, free pages and memory, and every call leaves the pages of all spaces alone that it does not give up; the run stops if and only if a call for a new table meets fewer than three free pages; every page in use belongs to one space or is a trapframe; when no space is left all other pages are on the free list |
| `AddressSpaces.Spaces.Do` | os/kernel/proc.c:57-92 | one of these calls: its panic if and only if a new table meets fewer than three free pages, and otherwise its effect |
| `AddressSpaces.KernelPages` | os/kernel/proc.c:67-79 | the two top pages of every address space are the trampoline, readable and executable, and the trapframe, readable and writable, neither open to the user |
| `AddressSpaces.CopySame` | os/kernel/vm.c:289-316 | after a fork the user can read every address below the size in the child and finds the parent's byte there |
| `AddressSpaces.UnmappedIntact` | os/kernel/vm.c:223-233 | giving up pages of one space leaves every other page of every space mapped to its frame, with its bytes |
| `AddressSpaces.FilledIntact` | os/kernel/vm.c:194-216 | new pages in one space leave every page there was, of every space, mapped to its frame, with its bytes |
| `Processes.Kernel.Start` | os/kernel/loader.c:60-98 | the first process, loaded and dispatched, runs with memory of the size asked for, which is what fork demands of its caller; the panic if and only if the pages, with the tables in closed form, are not there |
| `Processes.Kernel.Fork` | os/kernel/proc.c:211-247 | fork over pool, files and memory together: with the pool full nothing changes and the caller gets its own id; with too few pages a child that never runs; otherwise a runnable child with a copy of every page, sharing the descriptors; the panic exactly when the child's table finds fewer than three pages |
| `Virtio.ReadsMore` | os/kernel/virtio_disk.c:213-233 | a read performed on the medium as it is keeps every read in the log true |
| `Virtio.RingPush` | os/kernel/virtio_disk.c:248-253 | a push into a ring of 8 with 16-bit wrapping indices overwrites no unread entry |
| `Virtio.RingPop` | os/kernel/virtio_disk.c:287-297 | a pop reads the oldest entry and keeps the rest |
| `Virtio.Disk.AtMostTwo` | os/kernel/virtio_disk.c:182-193 | at most two chains are in flight and the two rings together hold at most two entries |
| `Virtio.Disk.Alloc3` | os/kernel/virtio_disk.c:182-193 | three different free descriptors, or the same descriptors free as before and fewer than three |
| `Virtio.Disk.Submit` | os/kernel/virtio_disk.c:198-258 | a chain of a header of 16 bytes, 1024 bytes of data and a status byte, with the directions the device needs, made available at the next index and disjoint from the chains in flight; it must wait only when two are in flight |
| `Virtio.Disk.Described` | os/kernel/virtio_disk.c:213-243 | every request in flight is described to the device by a header of 16 bytes that it reads, the 1024 bytes of the buffer that it reads or writes, and a status byte that it writes, in sectors of 512 bytes |
| `Virtio.Disk.DevTake` | os/kernel/virtio_disk.c:248-253 | the device reads the head of a queued chain |
| `Virtio.Disk.DevComplete` | os/kernel/virtio_disk.c:287-297 | the device follows the descriptors, moves the bytes that they cover where they allow it, stores the status where it may, and reports; that transfers exactly one block, in any order of requests |
| `Virtio.MovedAll` | os/kernel/virtio_disk.c:228-235 | a data descriptor of 1024 bytes that the device may use in the right direction moves the whole block |
| `Virtio.Disk.IntrOne` | os/kernel/virtio_disk.c:287-297 | each completed id has status 0 and a recorded buffer, and the flag of that buffer and of no other is cleared |
| `Virtio.Disk.Intr` | os/kernel/virtio_disk.c:272-298 | every completed request is acknowledged and no other changes; exactly the flags of their buffers are cleared |
| `Virtio.Disk.FreeChain` | os/kernel/virtio_disk.c:166-177 | exactly the three descriptors of the chain become free; neither panic is reached |
| `Virtio.Disk.Run` | os/kernel/virtio_disk.c:198-298 | any interleaving of driver, device and interrupt handler is a run of the transition system of requests, buffers, medium and log, in which each move that is possible has its effect: at most two requests in flight, the medium is what the writes made of it, every read delivered what the medium held at its turn, and the requests that ended are, in order, different transfers of the log |
| `Virtio.Disk.Finish` | os/kernel/virtio_disk.c:262-269 | a caller past its wait finds its own request done, an entry of the log no other request in flight has, with the data its buffer has, and its chain is free again |
| `Pipes.RingStore` | os/kernel/pipe.c:60-66 | a chunk stored at nwrite % PIPESIZE disturbs no undelivered byte |
| `Pipes.RingSlice` | os/kernel/pipe.c:88-94 | a chunk taken at nread % PIPESIZE is the next undelivered bytes in order |
| `Pipes.Pipe.Counters` | os/kernel/pipe.c:57-60 | the full and empty tests and the room computed from 32-bit counters are right after any wrap-around |
| `Pipes.RoundMoves` | os/kernel/pipe.c:60-66 | a round of either loop moves all that is left unless the ring is then full, or empty, or at its end, and something whenever it can |
| `Pipes.Pipe.Yield` | os/kernel/pipe.c:57-58 | any list of rounds and closes of other processes does to the pipe what the steps on its bytes and ends say, accepts no byte of the process that yields, and reopens no end |
| `Pipes.Pipe.Pipewrite` | os/kernel/pipe.c:47-71 | with any number of rounds of any number of other processes at every yield: what the call does between two of its yields is to accept its next bytes in order and nothing else, it yields only with the ring full and the read end open, and it still waits only then, after all the yields there were; all bytes are accepted when it returns n, a prefix when the read end closed; the panics for a count that is not positive and exactly when the next round needs bytes that cannot be read |
| `Pipes.Pipe.Piperead` | os/kernel/pipe.c:74-99 | with any number of rounds of any number of other processes at every yield: delivers the next bytes of the pipe, up to n, all there are, in one go; yields, and still waits, only with the ring empty and the write end open; -1 only when empty and the write end is closed; the panics for a count that is not positive and exactly when the next round does not fit the destination |
| `Pipes.Pipe.Close` | os/kernel/pipe.c:34-44 | the page is freed exactly when the second end closes |
| `Mailboxes.Mailbox.MailWrite` | os/kernel/proc.c:405-417 | appends the mail, cut to 256 bytes, to a queue of at most 16; the four results in the order the code tests them |
| `Mailboxes.Mailbox.MailRead` | os/kernel/proc.c:392-403 | takes the oldest mail even when only part of it fits; a failed copy-out leaves it |
| `FileTable.PageWhileOpen` | os/kernel/pipe.c:34-44 | a pipe has a page exactly while some descriptor names one of its ends, and the end a descriptor names is open |
| `FileTable.CountsExact` | os/kernel/file.c:11-40 | over every run from a table without spare files: every reference count is the number of descriptor slots if and only if no operation carried out was a sys_pipe for which kalloc had no page |
| `FileTable.StarvedPipe` | os/kernel/syscall.c:86-89 | such a run: one process, one sys_pipe without a page, and a count that is not the number of slots |
| `FileTable.BlockedPipeStays` | os/kernel/pipe.c:57-87 | a process blocked on a pipe finds the page allocated and its end open |
| `FileTable.Bystander` | os/kernel/proc.c:94-110 | over any run the descriptors of a process that asks for nothing keep naming the same open files |
| `FileTable.ClosePipes` | os/kernel/pipe.c:34-44 | closing a reference keeps pages and open ends in agreement with the files |
| `FileTable.CloseKeeps` | os/kernel/proc.c:104-109 | closing a slot keeps counts, pipes and slots in agreement |
| `FileTable.Table.Filealloc` | os/kernel/file.c:32-40 | the first file with count 0, or none |
| `FileTable.Table.Fdalloc` | os/kernel/proc.c:349-358 | the first free slot from 3 on, or none |
| `FileTable.Table.Fileclose` | os/kernel/file.c:11-30 | one reference less; the last one of a pipe's last open end frees its page; the panic if and only if the count was below 1 |
| `FileTable.Table.Open` | os/kernel/file.c:73-106 | the first free descriptor for the first free file exactly when the inode, a file and a slot are there; otherwise nothing stays changed; itrunc exactly on success with O_TRUNC; the panic exactly for an inode that is no file |
| `FileTable.Table.SysPipe` | os/kernel/syscall.c:78-101 | a pipe in the first two free files, named by the first two free descriptors; a failed copy-out leaves both files blank and allocates and frees the page once; a failed kalloc leaves exactly these two files referenced for ever |
| `FileTable.Table.Close` | os/kernel/syscall.c:141-149 | the slot is emptied and one reference given up; descriptor 0 is never closed |
| `FileTable.Table.Fork` | os/kernel/proc.c:211-247 | the child takes the first unused slot and its descriptors are the parent's, each counted once more; with a failed copy none are, and with a full pool nothing changes |
| `FileTable.Table.Exit` | os/kernel/proc.c:94-110 | every slot of the process is closed |
| `FileTable.Table.Step` | os/kernel/proc.c:94-110 | each of the seven operations is a step of the transition system, whose effect it states |
| `FileTable.Table.Run` | os/kernel/proc.c:94-110 | any run of start, open, pipe, close, fork, exit and wait by any processes is a run of the transition system and keeps counts, pages and descriptors in agreement |
| `Scheduler.Pool.Allocproc` | os/kernel/proc.c:112-142 | the first unused slot, with a process id no other process has |
| `Scheduler.Pool.Dispatch` | os/kernel/proc.c:168-184 | dispatches the next runnable slot in scan order; the panic if and only if no slot is runnable |
| `Scheduler.Pool.WaitCall` | os/kernel/proc.c:264-307 | reaps a matching zombie child and returns its id, which is the one asked for, and its exit code, or -1 if and only if there is no matching child, or blocks |
| `Scheduler.Pool.ExitCall` | os/kernel/proc.c:336-347 | the code is recorded; the slot becomes a zombie exactly when it has a parent; sched does not panic |
| `Scheduler.Pool.YieldCall` | os/kernel/proc.c:203-209 | the slot is runnable again and the scan moves on |
| `Scheduler.Pool.ForkCall` | os/kernel/proc.c:211-247 | the first unused slot becomes a runnable child of the caller, or stays merely used when the copy failed; with the pool full nothing changes and the caller gets its own id; slots in use are untouched |
| `Scheduler.Pool.SpawnCall` | os/kernel/proc.c:309-334 | a runnable child even when the program is not found; the panic if and only if the pool is full |
| `Scheduler.Pool.Do` | os/kernel/proc.c:203-347 | each call of the running process has the stated effect on every field of the pool; the panic if and only if it is a spawn and the pool is full |
| `Scheduler.EffectKeeps` | os/kernel/proc.c:203-347 | no call of another process stops a runnable one from being runnable |
| `Scheduler.Pool.Round` | os/kernel/proc.c:168-209 | at most one slot runs and it is current; the dispatch passes over no runnable slot, each call has the effect on the pool that is stated for it, and the slot gives up the processor itself or by the timer; other slots, and zombies of other parents, are untouched; a panic if and only if nothing was runnable or the next call is a spawn with the pool full |
| `Scheduler.Pool.Run` | os/kernel/proc.c:168-209 | any run of rounds is a run of the transition system of dispatches and calls, its log the slots dispatched; it stops only when nothing is runnable or a spawn finds the pool full; from any point at which a slot is runnable it is dispatched within NPROC dispatches |
| `Scheduler.BoundedWaiting` | os/kernel/proc.c:168-184 | in every run, from any point at which a slot is runnable, it is dispatched within NPROC dispatches, and before it no other slot is dispatched twice |
| `Strings.HasZeroWord` | os/user/lib/string.c:6-8 | HASZERO of a 64-bit word is nonzero exactly when one of its bytes is zero |
| `Strings.ByteInWord` | os/user/lib/string.c:89-91 | after xor with ONES times c it tells whether one of the bytes is c |
| `Strings.WordBytes` | os/user/lib/string.c:117 | a word taken apart gives back its eight bytes |
| `Strings.SpanIs` | os/user/lib/string.c:63-77 | the bytewise reference: the number of bytes before the first c, characterised both ways |
| `Strings.Strlen` | os/user/lib/string.c:63-77 | equals the bytewise length for every alignment |
| `Strings.Memchr` | os/user/lib/string.c:79-97 | equals the bytewise search for every alignment and length: the first byte equal to c modulo 256, or none |
| `Strings.Strnlen` | os/user/lib/string.c:99-103 | the length, at most n |
| `Strings.Stpcpy` | os/user/lib/string.c:105-125 | the string and its end are copied, nothing else changes, and the result is where the end went, for every pair of alignments |
| `Strings.Stpncpy` | os/user/lib/string.c:127-150 | at most n bytes copied, the rest of the n zeroed, nothing else changed |
| `Strings.Memset` | os/user/lib/string.c:38-44 | exactly n bytes become c |
| `Numbers.Printint` | os/user/lib/stdio.c:83-107 | writes the sign and a numeral that stands for the number, for bases 10 to 16; its index never leaves the buffer of 17 bytes |
| `Numbers.NumeralValue` | os/user/lib/stdio.c:96-99 | the decimal numeral of x consists of digits and stands for x |
| `Numbers.NumeralStandsFor` | os/user/lib/stdio.c:96-99 | in every base from 2 to 16 the numeral of x has only digits below the base, none of them a leading zero, and stands for x |
| `Numbers.ParsedParts` | os/user/lib/string.c:20-36 | any blanks in front and a plus sign change nothing, a minus sign negates, and what follows the digits does not count |
| `Numbers.Atoi` | os/user/lib/string.c:20-36 | spaces, a sign and digits, in 32-bit wrapping arithmetic |
| `Numbers.ParsePrinted` | os/user/lib/string.c:20-36 | parsing what printint wrote in base 10 gives the number back, for every 32-bit integer and with or without its sign |
| `Numbers.PrintAndParse` | os/user/lib/stdio.c:83-107 | the same for the two routines run one after the other |

## Left out

- Trap entry, context switch, timer and CSR code, PLIC and SBI: hardware; `swtch` is one step.
- The virtio register handshake, the queue notification and memory barriers: device registers; the queue starts initialised and the device conforms to it.
- Console, logging, kernel printf and line buffering of the user library: output.
- The stride scheduler: commented out in the code; priority and pass fields decide nothing.
- System-call dispatch, sys_mmap and sys_munmap: argument plumbing.
- Exec, and the scripts that pack programs; of the loader only how much memory the first process gets (`Kernel.Start`): the pages hold zeros, not the program.
- Saved registers, kernel stacks and the contents of trapframe pages.
- Crash consistency: the code has no log.
- Kernel page table set-up (kvmmake, kvmmap) and uvmclear: straight-line uses of mappages and walk.
- Machine state after a panic.
- Widths of counters that only count: inode and buffer references, process ids and file references are unbounded here.
- In-memory inode references held by open files: `FileTable` treats an open inode as a file type, and `iput` is proved in `FileSystem`.
- FileSystem.FileSys.Readi: the source bytes of a copy to a kernel buffer and to user memory are not told apart; a parameter says how much the destination takes.
- Mailboxes.Mailbox.MailWrite: negative lengths, which the C code would pass on as huge unsigned ones, are not modelled.
- Mailboxes.Mailbox.MailRead: negative lengths, which the C code would pass on as huge unsigned ones, are not modelled.
- Directory.Dirunlink: names longer than the 14-byte field, for which the C comparison runs past the entry on the stack, are not modelled.
- BufferCache.Cache.Get: devices other than the root device, which no caller names.
- BufferCache.Cache.Bread: devices other than the root device, which no caller names.
- FileSystem.FileSys.Iget: devices other than the root device, which no caller names.
- FileSystem.Fsinit: a device with the right magic number must hold a sound image; the C code checks no more than the number.
- FileTable.Table.Close: a descriptor that names no file, at which the C code follows a null pointer, is not modelled.
- FileRuns.BuildBootRead: the kernel's invariant is demanded at boot, so numbers of files that are a multiple of 64 are left out.
- AddressSpaces.Spaces.DoGrow: sizes above MAXVA, at which walk panics, are not modelled.
- Processes.Kernel.Fork: the caller must have memory, without which it could not run; `Start` gives the first process some.
- FileTable.Table.SysPipe: demands two free files and two free descriptors, which the C code does not check.
- Mkfs.Image.Ialloc: inode numbers past 199, which the C code hands out unchecked, are not modelled.
- Mkfs.Image.Populate: demands at most 198 files; beyond that inodes fall outside the range the kernel scans and then on the bitmap block.
- Mkfs.Image.Winode: the six padding bytes of an inode on disk are kept, where the C code rewrites the zeros that are there.
- Virtio.Disk.Submit: the caller must not have a request for the same buffer in flight; in the kernel the reference it holds ensures this.
- Scheduler.Pool.Run: the run stops at the panic of `spawn` on a full pool.
- Strings.Stpncpy: lengths of 2^31 and more, at which the C loop counter overflows.
- Strings.Memset: lengths of 2^31 and more, at which the C loop counter overflows.
- Numbers.Atoi: signed overflow, undefined in C, wraps.
- Numbers.Printint: bases below 10, which no caller uses and of which the smallest overrun the buffer, are not modelled.
