# Proofs about xv6-k210

A Dafny model of the parts of the xv6-k210 kernel, and of two of its user programs, whose
correctness is hardest to see from the code, with proofs of what they are for. Code that changes
state step by step is modelled by classes with methods and loops over the same fields; the
concurrent protocols are step relations over any number of processes, CPUs, locks and channels.

| files | what they model |
|---|---|
| `FatChains`, `FatData`, `FatVolume` | the FAT32 volume (`kernel/fat32.c`): cluster chains, the cluster cursor, reading, writing and truncating files |
| `FatNames`, `FatEncode`, `FatListing`, `FatChanges`, `FatDirectory` | directories: long-name slots, `emake`, `enext`, `dirlookup`, `eremove`, and the list of records they stand for |
| `FatRuns`, `FatTree` | runs of operations on a directory with the cached entries that `dirlookup` asks first; the map from names to files that the directories' slots stand for |
| `Rings`, `EntryCache`, `BufferCache` | the doubly linked rings, the cache of directory entries with `sys_rename`, and `kernel/bio.c` |
| `PageTables`, `VirtualMemory`, `AddressSpaces`, `UserCopies` | Sv39 tables in physical pages, `kernel/kalloc.c`, `kernel/vm.c`, user and kernel tables in lockstep |
| `PageOwnership`, `ProcessPages`, `ExecPages` | who owns each physical page through `freewalk`, `freeproc`, `fork` and `exec` |
| `SleepWakeup`, `SleepLocks`, `Scheduler`, `WaitExit` | sleep and wakeup, sleep locks, locks handed across `swtch`, reaping, interrupt state, `wait` and `exit` |
| `Pipe`, `PipeRuns` | `kernel/pipe.c`: the ring of bytes, and any number of threads visiting it over the steps of sleep and wakeup |
| `Heap` | `malloc` and `free` of `user/umalloc.c` |
| `ShellGrammar`, `Shell`, `ShellSyntax` | scanner and parser of `user/sh.c`, and the sentences they accept |

The formats follow the Microsoft FAT Specification (August 2005, sections 4, 6 and 7) and section
4.4 of the RISC-V Privileged Architecture, as far as the code does.

## How to read it

Invariants are ghost predicates over plain values (`Linked`, `Trees`, `Tiling`, `Coherent`, `Inv`,
...). A class ties its fields to them in `Valid()`, and its methods say what the new state is. In
the memory files every physical page has a role: free, the top of a tree of tables, a table page
hanging from one entry of one other page, a frame held through one entry of one table, or a page
the kernel holds by its address. `Trees`, `Frames` and `Pool` say that the words in memory agree
with the roles, so a page can never be in two places, and equal roles before and after a failing
call mean that every page it took was given back exactly once.

## What does not hold

Some things the code or its comments promise are not true of it; the model keeps the code and
says exactly when they hold.

- A name whose short form begins with 0xe5 is written to the directory and never read back:
  `RoundTrip` (exactly when), `LostName` (an example).
- `dirlookup` (kernel/fat32.c:942) assigns the comparison instead of the result of `enext`, so free
  slots inside a directory are never offered although its comment says so: `LookFinds`.
- `emake` writes a dot entry for any name whose place is one of the first two slots
  (kernel/fat32.c:577): `CreateListed`.
- `dirlookup` asks the entry cache before it scans (kernel/fat32.c:933-934), and `ealloc` leaves a valid
  cached entry even when no scan will find the name. So the cache and the disk disagree after a creation
  exactly if its place is one of the first two slots or its short form begins with 0xe5: `StepTruthful`,
  and over whole runs `RunTruthful`. Once that entry is recycled the file is lost (`EAlloc`, `DirLookup`:
  the set `lost`; `CreateStands`).
- `eremove` takes the number of slots to free from the first of them. At the place of a cached entry in
  the first two slots that is the code of a dot, and it frees 47 slots: `RemoveExact` (it frees the
  record's slots exactly if its place is not one of those two), `RootLoses` (a run from an empty root
  directory in which removing one file loses another). If the directory ends before the count does,
  `eremove` goes on to write at an offset of -1: `ERemove` (exactly when), `NeverStray` (never while
  the cache agrees with the scan).
- `exec` takes `uvmalloc`'s answer 0 for a failure, so a first segment that ends at address 0 makes it
  fail: `Exec`.
- `malloc` of more than 2^31 - 32 bytes makes `sbrk`'s int parameter smaller than what `morecore`
  records: `SbrkExact`.
- `pipewrite` returns -1 to a killed process, or when nobody can read any more, without the wakeup it
  may owe (kernel/pipe.c:77-80), so a reader can sleep on a full pipe. That happens exactly if the
  pipe was empty with its write end open, 512 bytes or more of a longer write could be copied, and the
  process had been killed or the read end closed: `Pipe.Write` (predicate `Unwoken`), with a call in
  `KilledWriter`. It is harmless exactly if nobody sleeps on that channel: `PipeRuns.GivesUp`.
- `copyin2` and `copyout2` accept a range whose end wraps around 2^64, and exactly then the copy runs
  into a page fault: `AcceptsInside`, `CopyIn2`, `CopyOut2`; and they accept a page cleared by
  `uvmclear`: `DirectIsWalking`.
- When `proc_kpagetable` finds one to three free pages, its clean-up unmaps a stack that is not mapped
  and the kernel panics. So `allocproc` and `fork` panic exactly if five, six or seven pages are free:
  `ProcKpagetable`, `AllocProc`, `Fork`, and `AllocWith` for machines with so many pages.
- When a copy fails half-way through a cluster, `ewrite` and `eread` have moved whole sectors that their
  count leaves out: `EWrite`, `ERead` (how much is stored and how much counted), `CountShort` (exactly
  when the two differ), `HalfStored` (a call).
- The comment above `uvmdealloc` says that oldsz can be larger than the process. It panics then,
  exactly if it would have to unmap a page the process does not have: `UvmDealloc`. Its callers never
  make it: `GrowProc`, `UvmAlloc`.
- `sbrk` of a negative amount beyond the size of the process wraps around in an unsigned int, does
  nothing and succeeds: `GrowProc`.

## Model

| member | source | states |
|---|---|---|
| `Heap.Allocator.Malloc` | user/umalloc.c:63-90 | For every request up to 2^31 - 32 bytes: NULL comes back exactly when no free block fits and sbrk refuses, and then nothing is lost; otherwise exactly one block that was not live before becomes live, with its header in front of the returned pointer and room for the request. Units obtained from sbrk are never lost, the heap grows only when no free block fits, and the search ends, also when morecore's block is joined to the block freep names |
| `Heap.SbrkExact` | user/umalloc.c:46-61 | The amount that reaches sbrk's int parameter is what morecore assumes it owns if and only if the request is at most 2^31 - 32 bytes |
| `Heap.UnitsExact` | user/umalloc.c:69 | A request is rounded up to the fewest units that hold the header and the bytes |
| `Heap.Allocator.Free` | user/umalloc.c:24-44 | Exactly the freed block leaves the live blocks, its units are part of a free block afterwards, no unit is lost and the ring invariant holds |
| `Heap.Allocator.FindPlace` | user/umalloc.c:30-32 | The search ends, whatever node freep names, at the ring node below the block whose successor lies above it or is base |
| `Heap.Allocator.MeetUpper` | user/umalloc.c:33-37 | Joins the block with its upper neighbour exactly if they touch; only one link of the ring is then still to be set |
| `Heap.Allocator.MeetLower` | user/umalloc.c:38-43 | Joins the block with its lower neighbour exactly if they touch, which completes the ring |
| `Heap.Allocator.MoreCore` | user/umalloc.c:46-61 | Returns NULL exactly if sbrk does; otherwise the units obtained, at least 4096, are added once, live blocks are untouched, and some free block is large enough |
| `Heap.Allocator.Take` | user/umalloc.c:75-84 | Both the exact fit and the split hand out one block of exactly the units asked for, disjoint from all others; freep becomes the predecessor |
| `Heap.Allocator.ClientWrite` | user/umalloc.c:84 | Whatever a client writes into the units of its own block behind the header leaves the allocator's invariant true |
| `Heap.OneCycle` | user/umalloc.c:25-90 | From base, following ptr visits every free block exactly once in address order, no two of them touching, and wraps to base once |
| `Heap.EveryUnitOnce` | user/umalloc.c:25-90 | A unit was obtained from sbrk exactly if it lies in some block, free or live, and then it lies in only one |
| `Heap.AheadStep` | user/umalloc.c:30-32 | Each step of free's search strictly shrinks the set of ring nodes still to be passed |
| `Heap.TodoStep` | user/umalloc.c:74-89 | Each step of malloc's search takes exactly the node looked at from those to do, and the one that looks at freep is the last |
| `Heap.JoinUpper` | user/umalloc.c:33-35 | Upper coalescing keeps blocks, tiling and every ring link but one |
| `Heap.JoinLower` | user/umalloc.c:38-40 | Lower coalescing restores the whole ring |
| `Heap.LinkAbove` | user/umalloc.c:41-42 | Linking the block above its lower neighbour restores the whole ring |
| `Heap.Grow` | user/umalloc.c:54-59 | Units from sbrk form a block of their own above all others |
| `Heap.Unlink` | user/umalloc.c:76-77 | An exact fit leaves the ring intact without the block |
| `Heap.Carve` | user/umalloc.c:78-82 | Cutting a block off the tail of a free block leaves ring and tiling intact |
| `FatChains.EveryCluster` | kernel/fat32.c:190-279 | A data cluster that is not marked bad is free exactly if it is in no chain; otherwise it is at one place of one chain; clusters marked bad are neither free nor in a chain, and slots that name no data cluster are never free |
| `FatChains.Disjoint` | kernel/fat32.c:190-279 | Chains are acyclic and pairwise disjoint |
| `FatChains.AddChain` | kernel/fat32.c:259-267 | The word alloc_clus stores takes exactly one free slot and makes it a chain of its own |
| `FatChains.Append` | kernel/fat32.c:337-341 | Storing the new cluster's number in the last word of a chain appends it there and changes no other chain |
| `FatChains.DropChain` | kernel/fat32.c:732-742 | Truncation frees exactly the clusters of the chain and leaves every other chain as it was |
| `FatData.SameSector` | kernel/fat32.c:158-161 | A sector of the data region belongs to one cluster, at one place in it |
| `FatData.WriteSector` | kernel/fat32.c:289-307 | Rewriting part of one sector changes just those bytes of that cluster and no byte of any other |
| `FatData.ClusPlace` | kernel/fat32.c:158-161 | Cluster 2 begins with the data region, and each cluster where the one before ends |
| `FatData.WrotePlace` | kernel/fat32.c:282-319 | A write to a cluster changes exactly those bytes of the disk |
| `FatData.StoreInCluster` | kernel/fat32.c:282-319 | A write inside one cluster of a chain is a write of the chain's byte stream at the corresponding place |
| `FatData.StoreElsewhere` | kernel/fat32.c:282-319 | A write to a cluster outside a chain leaves the chain's byte stream alone |
| `FatVolume.Volume.ReadFat` | kernel/fat32.c:190-207 | Which word is read, by sector and offset, and what comes back for numbers past the last cluster or from EOC on |
| `FatVolume.Volume.WriteFat` | kernel/fat32.c:214-229 | Exactly the cluster's word changes, or nothing and -1 past the last cluster |
| `FatVolume.Volume.ZeroClus` | kernel/fat32.c:232-242 | Exactly the bytes of the cluster become zero |
| `FatVolume.Volume.AllocClus` | kernel/fat32.c:245-273 | Panics exactly if no cluster is free; otherwise the first free data cluster is taken, zeroed and made a chain of its own |
| `FatVolume.Volume.LinkFresh` | kernel/fat32.c:338-341 | The file's chain grows by one fresh zeroed cluster; its bytes and every other file stay as they were |
| `FatVolume.Volume.Forward` | kernel/fat32.c:334-351 | The forward loop: how long the chain is afterwards, when it gives up with the cursor reset, when it runs out of clusters |
| `FatVolume.Volume.RelocClus` | kernel/fat32.c:329-366 | The cursor ends on cluster off / bytes-per-cluster of the chain, as if walked from the start; -1 exactly if alloc is not set and the chain is too short; with alloc the chain grows to exactly the length needed; out of clusters exactly if more are needed than are free; panic("reloc_clus") is never reached |
| `FatVolume.Volume.WriteClus` | kernel/fat32.c:282-319 | Stores as many whole sectors of the source as can be read, all of it if it can be, across sector boundaries, at byte (cluster - 2) * bytes-per-cluster + off of the data region, and changes no other byte of the disk |
| `FatVolume.Volume.ReadClus` | kernel/fat32.c:282-319 | Returns the bytes of the data region from byte (cluster - 2) * bytes-per-cluster + off on, as many whole sectors as the destination takes, or all of them |
| `FatVolume.Volume.FirstCluster` | kernel/fat32.c:412-416 | A file without clusters gets one, zeroed, and its cursor is set anew |
| `FatVolume.Volume.WriteRound` | kernel/fat32.c:418-428 | One round of the loop stores the next piece in one cluster and keeps account of how far the chain has grown |
| `FatVolume.Volume.EWrite` | kernel/fat32.c:405-437 | A completed write turns the content into old[..off] + data + old[off+n..], with exactly the clusters needed allocated; in the cases the code rejects -1 comes back and nothing has changed; when the source goes bad, what is stored ends at the last sector boundary reached and what is counted at the last cluster boundary; out of clusters exactly if more are needed than are free; no other file changes; the directory entry is marked for writing back exactly if the first cluster or the size is new |
| `FatVolume.Volume.ERead` | kernel/fat32.c:372-400 | Returns content[off..min(off+n, size)]; when the destination goes bad, delivers up to the last sector boundary reached and counts up to the last cluster boundary; 0 in the cases the code rejects; the volume is unchanged |
| `FatVolume.Volume.ContentPlace` | kernel/fat32.c:329-400 | Byte k of a file is the byte of the disk at place k mod bytes-per-cluster of the cluster that stands k / bytes-per-cluster links down the chain |
| `FatVolume.CountShort` | kernel/fat32.c:418-428 | The count falls short of what was moved if and only if the last sector boundary reached lies behind both the start and the last cluster boundary reached |
| `FatVolume.HalfStored` | kernel/fat32.c:405-437 | A concrete call of ewrite that stores 512 bytes, counts none of them and leaves the size 0 |
| `FatVolume.Volume.ETrunc` | kernel/fat32.c:732-742 | Exactly the file's clusters become free and its chain is gone; the loop ends |
| `FatVolume.OtherFiles` | kernel/fat32.c:405-437 | After a change of one file every other open file has its clusters, its bytes and a valid cursor |
| `FatVolume.Spliced` | kernel/fat32.c:405-437 | Storing bytes in the stream of a file is splicing them into its content |
| `FatNames.NarrowField` | kernel/string.c:116-123 | snstr puts the field's part of the name into the buffer and touches nothing else; the place of a terminator it does not write was zero before |
| `FatNames.Fields` | kernel/fat32.c:596-617 | The three fields of the i-th long entry hold thirteen consecutive positions of the name |
| `FatNames.ReadLongSlot` | kernel/fat32.c:815-825 | Reading a long entry restores its thirteen characters of the name, including a terminator in any of the three fields |
| `FatNames.LongLayout` | kernel/fat32.c:594-617 | Every byte of a long entry: order with the last-entry bit, attribute 0x0f, checksum, and the thirteen characters at their places, a terminator and 0xffff behind the name |
| `FatNames.ShortLayout` | kernel/fat32.c:622-627 | Every byte of a short entry: name, attribute, the first cluster in two halves and the size, the lowest byte first, zeros elsewhere |
| `FatNames.LongsCover` | kernel/fat32.c:590 | A name gets as few long entries as hold it |
| `FatListing.RoundTrip` | kernel/fat32.c:867-908 | enext over what emake wrote gives back name, attribute, 32-bit first cluster and size, in ceil(len/13) + 1 slots, if and only if the short name does not begin with 0xe5 |
| `FatListing.LostName` | kernel/fat32.c:884-890 | A concrete record whose name begins with 0xe5 and which enext reports as the end of the directory |
| `FatListing.EnextRecord` | kernel/fat32.c:891-905 | At the start of a record enext returns that record |
| `FatListing.EnextHoles` | kernel/fat32.c:884-890 | Free slots are skipped, counted and reported only if a record follows |
| `FatListing.ScanLists` | kernel/fat32.c:867-908 | Calling enext until the end yields exactly the records of the directory, in order |
| `FatListing.LookFinds` | kernel/fat32.c:918-961 | dirlookup finds the first record with the name, and otherwise stops behind the last record: free slots in between are never offered, because of the type test in line 942 |
| `FatListing.LookThrough` | kernel/fat32.c:942-956 | The scan for a name that none of the records has goes on behind the last of them, whatever lies there |
| `FatListing.LookLost` | kernel/fat32.c:884-908 | A scan that comes to a record whose short name begins with 0xe5 finds nothing any more |
| `FatListing.FirstListed` | kernel/fat32.c:942-955 | There is a first match exactly if the name is listed |
| `FatChanges.AppendHolds` | kernel/fat32.c:568-631 | A record stored where dirlookup stopped leaves a well-formed directory |
| `FatChanges.AppendList` | kernel/fat32.c:568-631 | ... with exactly that record added at the end of the list |
| `FatChanges.RemoveHolds` | kernel/fat32.c:712-727 | Marking a record's slots free takes exactly that record from the list and moves no other |
| `FatChanges.FoundLong` | kernel/fat32.c:716-719 | The count eremove reads from the first slot is the number of slots the record has |
| `FatChanges.CreateListed` | kernel/fat32.c:577-588 | A created name is listed by the scan afterwards if and only if dirlookup's scan ended at the third slot or later; in the first two emake writes "." or ".." |
| `FatChanges.EndIsTail` | kernel/fat32.c:938-960 | The list alone says where dirlookup's scan for an absent name ends |
| `FatChanges.StepHolds` | kernel/fat32.c:568-727 | One creation or removal for which dirlookup goes by its scan alone does to the list exactly what it says, in any well-formed directory; a record made in one of the first two slots is listed as "." or ".." |
| `FatRuns.StepTruthful` | kernel/fat32.c:568-961 | One creation, removal, lookup or recycled entry with the cached entries that dirlookup asks first: the cache answers as the scan does afterwards if and only if the step is not a creation whose place is one of the first two slots or whose short form begins with 0xe5; and then the list changes by exactly what the step says |
| `FatRuns.RunTruthful` | kernel/fat32.c:568-961 | Over whole runs, in any directory, the root included: cache and scan agree throughout if and only if no creation in the run is such a one |
| `FatRuns.RunFaithful` | kernel/fat32.c:568-961 | Over any run without such a creation the enext scan yields the list the same run produces, names stay distinct, dirlookup with its cache succeeds exactly on the listed names and at their places, and every name created is listed |
| `FatRuns.DottedRun` | kernel/fat32.c:568-961 | In a directory with its two dot entries the only creations that lose their name are those whose short form begins with 0xe5 |
| `FatRuns.RemoveExact` | kernel/fat32.c:716-725 | eremove at the place ealloc stored a record frees exactly the record's slots if and only if that is not one of the first two slots; there it frees 47 |
| `FatRuns.RootLoses` | kernel/fat32.c:636-961 | A concrete run: in an empty root directory of 47 slots or more three files are made and the first is removed; the third, which dirlookup found before, is gone |
| `FatTree.CreateFinds` | kernel/fat32.c:636-675 | A creation in a directory: the new name leads to the new record exactly if it is not lost, and every other name, found or not, to where it led |
| `FatTree.RemoveFinds` | kernel/fat32.c:712-727 | A removal: the name is found no more, and every other name leads to where it led |
| `FatTree.CreateStands` | kernel/fat32.c:636-675 | What the slots of all directories stand for after a creation is the map, with the set of lost names, that EntryCache.Cache.CreateChild makes |
| `FatTree.RemoveStands` | kernel/fat32.c:712-727 | The same for a removal and EntryCache.Cache.ERemove, whose condition holds then |
| `FatTree.RenameStands` | kernel/sysfile.c:463-470 | The same for emake followed by eremove and the map that EntryCache.Cache.MoveEntry makes, within one directory or between two |
| `FatTree.DirStands` | kernel/fat32.c:663-669 | A directory that has just been made stands for no names |
| `FatEncode.GenerateShortname` | kernel/fat32.c:511-550 | The loop with its jumps computes the short form: the first eight characters in front of the last dot and the first three behind it, without blanks and dots, in upper case, padded with blanks; the memset in it never gets a negative length |
| `FatEncode.ShortForms` | kernel/fat32.c:511-550 | No byte of a short form is zero, and it begins like the name |
| `FatEncode.ShortReadBack` | kernel/fat32.c:511-550 | Read back from the short entry alone, a name is the first eight bytes of its base and, behind a dot, the first three of its extension, in capitals, with an underscore for what a short name may not hold |
| `FatEncode.CalChecksum` | kernel/fat32.c:552-559 | The rotating 8-bit sum over the eleven bytes |
| `FatEncode.ChecksumSees` | kernel/fat32.c:552-559 | Every byte reaches the sum: short names that differ in one byte have different checksums |
| `FatEncode.RotatedBits` | kernel/fat32.c:556 | Each round moves every bit of the sum one place down and the lowest to the top |
| `FatEncode.ChecksumFirst` | kernel/fat32.c:552-559 | The bytes are taken in order |
| `FatEncode.FillLong` | kernel/fat32.c:597-617 | The byte loop with its jumps between the three fields produces the slot that LongSlot describes, whatever the slot held before |
| `FatEncode.SnstrLoop` | kernel/string.c:116-123 | The two loops compute Snstr |
| `FatEncode.ReadEntryName` | kernel/fat32.c:815-840 | Both branches leave the buffer as ReadLong and ReadShort say |
| `FatEncode.ReadShortName` | kernel/fat32.c:826-839 | Base name and extension up to their first blanks, with a dot between them if there is an extension |
| `FatDirectory.Emake` | kernel/fat32.c:568-631 | On the volume: exactly the slots of the record with its short form and checksum (or a dot entry in the first two) are overwritten, the directory grows as needed, no other file changes; out of clusters only if more are needed than are free |
| `FatDirectory.EmakeLongs` | kernel/fat32.c:596-621 | The loop stores the long entries from the last down to the first |
| `FatDirectory.ENext` | kernel/fat32.c:867-908 | The loop over the volume computes Enext on the directory's slots and changes nothing |
| `FatDirectory.FindName` | kernel/fat32.c:938-960 | dirlookup's loop computes Look on the directory's slots and changes nothing |
| `FatDirectory.FreeSlot` | kernel/fat32.c:722-724 | Exactly the first byte of one slot changes, or nothing when the directory has no such slot |
| `FatDirectory.ERemove` | kernel/fat32.c:712-727 | Exactly the slots the first one announces are marked free, or all up to the end of the directory exactly if it announces more, and then the code goes on to write at an offset of -1; no other file changes before that |
| `FatDirectory.CreateEntry` | kernel/fat32.c:636-675 | The directory part of ealloc, with the cached entries it asks first, is the creation step of FatRuns; no other file changes; out of clusters only if the directory needs more than are free |
| `FatDirectory.RemoveEntry` | kernel/fat32.c:712-727 | dirlookup, by cached entry or scan, and eremove on the volume are the removal step of FatRuns unless the count reaches past the directory; no other file changes |
| `FatDirectory.NeverStray` | kernel/fat32.c:712-727 | While cache and scan agree, the count eremove reads never reaches past the directory |
| `FatDirectory.MakeDirectory` | kernel/fat32.c:663-669 | ealloc of a directory: out of clusters exactly if none is free; otherwise it has a cluster of its own and holds exactly ".", which leads to itself, and "..", which leads to its parent, and so is one in which DottedRun holds; no other file changes |
| `FatDirectory.StoredSlots` | kernel/fat32.c:568-631 | Bytes stored in the directory's stream are slots overwritten in the directory |
| `Rings.MovedToFront` | kernel/fat32.c:768-773 | The six assignments move a node to the front of the ring and keep the order of all others |
| `Rings.Along` | kernel/bio.c:82-93 | Following next runs through the order, following prev runs back through it |
| `Rings.ToFrontKeeps` | kernel/bio.c:144-149 | Moving a node to the front puts it before all others and keeps which of two others comes first |
| `EntryCache.Cache.constructor` | kernel/fat32.c:140-151 | The loop builds a ring of all slots on which every invariant of the cache holds |
| `EntryCache.Cache.EPut` | kernel/fat32.c:761-797 | One handle less, every invariant kept; only counts and the order of use change |
| `EntryCache.Cache.Put` | kernel/fat32.c:761-797 | The recursion ends at the latest at the root; an ancestor's count drops exactly when the last reference to its child goes, and each entry put away moves to the front before its parent does |
| `EntryCache.Cache.EDup` | kernel/fat32.c:678-686 | One handle and one count more |
| `EntryCache.Cache.EGet` | kernel/fat32.c:446-482 | A hit is a valid entry of that name and parent with one more reference; otherwise there is none, and the slot recycled is the least recently used one nobody uses |
| `EntryCache.Cache.DirLookup` | kernel/fat32.c:918-961 | A name is found exactly if it is cached or the disk has it and it is not lost to the scan, and what is found is what the disk has under the name in the directory; a removed directory has nothing |
| `EntryCache.Cache.EAlloc` | kernel/fat32.c:636-675 | Afterwards the disk has a file of that name in the directory, created exactly if dirlookup found none, and it is what comes back; the name is lost to the scan from then on exactly if it begins with 0xe5 or its place is one of the first two slots |
| `EntryCache.Cache.ERemove` | kernel/fat32.c:712-727 | For a name that is not lost: exactly the entry's name goes from the disk, and the cache still mirrors it |
| `EntryCache.Cache.Above` | kernel/sysfile.c:432-436 | The climbing loop ends and finds the source exactly if it lies on the way from the new parent to the root |
| `EntryCache.Cache.Rename` | kernel/sysfile.c:418-496 | When no target is found: the file moves to its new name on the disk and in the cache, unless the new parent lies below it; the new name is lost to the scan exactly as in ealloc; parents still lead to the root; a failure changes nothing on the disk. Success and failure give back one reference to the source and one to the new parent, two if they are the same entry; whatever else is held keeps its name, parent, file and state |
| `EntryCache.Cache.MoveEntry` | kernel/sysfile.c:463-477 | From emake to eput of the old parent: name, parent and counts change together and every invariant holds again |
| `EntryCache.Orphanless` | kernel/fat32.c:469-479 | The slot eget recycles is never one that a valid or used entry still names as its parent |
| `EntryCache.LastAged` | kernel/fat32.c:768-792 | An entry put away stays behind its unreferenced children in the order of use |
| `EntryCache.NotCached` | kernel/fat32.c:933-951 | A file that was missed under its name is nowhere else in the cache, so none is cached twice |
| `EntryCache.InUse` | kernel/fat32.c:446-797 | An entry is in use exactly while someone outside holds it or a cached child of it is in use |
| `EntryCache.ParentInUse` | kernel/fat32.c:446-797 | An entry in use has a parent in use |
| `EntryCache.ClimbsMoved` | kernel/sysfile.c:432-474 | After the move every way still leads to the root |
| `EntryCache.MovedRefs` | kernel/sysfile.c:471-477 | Counts are right again when the old parent has been put |
| `BufferCache.Cache.constructor` | kernel/bio.c:44-66 | The loop builds a ring of all buffers, none of them for any sector |
| `BufferCache.Cache.Get` | kernel/bio.c:75-105 | A sector already cached is found; a buffer in use keeps its identity; otherwise the one recycled is, of those nobody uses, the one put back longest ago; no buffer comes back exactly if there is none to recycle |
| `BufferCache.Cache.BRead` | kernel/bio.c:110-120 | The buffer for the sector asked for, with the caller as one more user; the caller has to wait exactly if another client has it locked, and otherwise owns it and sees what was written last; no buffer exactly if every one is in use for another sector |
| `BufferCache.Cache.Awoken` | kernel/bio.c:83-120 | Once the lock is free the caller owns the buffer, which holds what was written last |
| `BufferCache.Cache.Fill` | kernel/bio.c:114-117 | After it the owner sees what is on the disk |
| `BufferCache.Cache.Edit` | kernel/fat32.c:303-306 | The owner changes the contents; every invariant holds with the buffer marked as not yet written |
| `BufferCache.Cache.Write` | kernel/bio.c:124-128 | The sector holds the buffer's contents; every other buffer still agrees with the disk |
| `BufferCache.Cache.BRelse` | kernel/bio.c:133-153 | The client no longer uses the buffer and every invariant holds |
| `BufferCache.Cache.Drop` | kernel/bio.c:140-152 | The count drops, and the buffer moves to the front exactly if that was its last user |
| `BufferCache.OldestStamp` | kernel/bio.c:93-94 | The first unused buffer from the tail is the one released longest ago |
| `BufferCache.Written` | kernel/bio.c:124-128 | Writing a sector concerns only its one buffer |
| `BufferCache.Idle` | kernel/bio.c:94-98 | A buffer nobody uses is not locked, and one that is not locked has nothing unwritten in it |
| `SleepWakeup.Keeps` | kernel/proc.c:641-686 | Every step of every thread keeps the invariant |
| `SleepWakeup.NoLostWakeup` | kernel/proc.c:641-686 | In every interleaving of any number of processes, locks and channels: while a process sleeps on a channel whose condition has become true, some other process has yet to call wakeup on it or is in that call and has not passed its slot |
| `SleepWakeup.OneHolder` | kernel/proc.c:641-670 | In every interleaving a lock has one holder, also across sleep |
| `SleepLocks.LKeeps` | kernel/sleeplock.c:22-52 | Every statement of acquiresleep, releasesleep and holdingsleep, of any number of threads, keeps the invariant |
| `SleepLocks.OneSleepHolder` | kernel/sleeplock.c:22-41 | In every interleaving at most one thread is between the return of acquiresleep and its call of releasesleep |
| `SleepLocks.HoldingRight` | kernel/sleeplock.c:43-52 | holdingsleep answers true exactly to the thread that holds the lock |
| `SleepLocks.FreeWakes` | kernel/sleeplock.c:22-41 | While nobody holds the lock, whoever sleeps for it is about to be woken by a thread in releasesleep |
| `Scheduler.Keeps` | kernel/proc.c:333-686 | Every step of every CPU, of its scheduler or of the thread it runs, keeps the invariant, wait's return with a ZOMBIE it could not report included |
| `Scheduler.OneCpu` | kernel/proc.c:535-574 | In every reachable state at most one CPU runs on a process's kernel stack or translates by its kernel page table |
| `Scheduler.Handoff` | kernel/proc.c:535-601 | On either side of swtch the CPU holds that process's lock and no other, depth 1, interrupts off, and none of sched's panics can happen |
| `Scheduler.ReapSafe` | kernel/proc.c:477-525 | wait calls freeproc only for a ZOMBIE whose stack, page table and slot no CPU is using |
| `Scheduler.ReapedZombie` | kernel/proc.c:414-472 | A ZOMBIE locked by wait has been switched out for good |
| `Scheduler.InterruptsRestored` | kernel/intr.c:17-45 | When a thread has released its last lock, interrupts are as they were when it took its first, whatever CPU it is on by then |
| `Scheduler.WantKept` | kernel/proc.c:584-601 | Only the thread itself changes that state: no switch, and no step of another thread or CPU |
| `WaitExit.WKeeps` | kernel/proc.c:382-525 | Every step of wait's scan, of exit with the parent it has remembered, and of all others keeps the invariant |
| `WaitExit.NoMissedExit` | kernel/proc.c:414-525 | In every run no process but init sleeps in wait while one of its children is a ZOMBIE |
| `WaitExit.RightParent` | kernel/proc.c:430-466 | The parent that exit has locked and wakes is its process's parent still, unless that is init by then |
| `Pipe.Wrapped` | kernel/pipe.c:76-110 | The 32-bit counters tell empty from full, and their difference is the number of bytes held, through every wrap-around |
| `Pipe.SlotOf` | kernel/pipe.c:87-112 | A wrapped counter names the slot of its stream position, because 512 divides 2^32 |
| `Pipe.Pipe.Write` | kernel/pipe.c:67-92 | What is accepted is the next piece of the source and nothing else; why the visit ends; it sleeps only on a full pipe with no wakeup owed; whoever can read now has been woken, except exactly after the calls of Unwoken |
| `Pipe.Pipe.Read` | kernel/pipe.c:94-120 | What is delivered are the oldest bytes in order; a byte whose copyout fails is consumed all the same; it sleeps only on an empty pipe with an open write end; whoever can write now has been woken |
| `Pipe.Pipe.Close` | kernel/pipe.c:49-65 | Everyone who waited for the closed end may go on and has been woken; the page goes exactly when both ends are closed |
| `Pipe.KilledWriter` | kernel/pipe.c:76-80 | A concrete call of pipewrite, 513 bytes from a killed process into an empty pipe, that leaves a reader who can go on unwoken |
| `PipeRuns.PKeeps` | kernel/pipe.c:49-120 | Every step of any number of threads visiting the pipe keeps the invariant: the two conditions are those of the ring, and only the thread in a visit owes wakeups |
| `PipeRuns.PipeWakes` | kernel/pipe.c:49-120 | No lost wakeup in pipes: in every interleaving, while a process sleeps on a pipe's channel although it may go on, a thread visiting the pipe has yet to wake it |
| `PipeRuns.GoesOn` | kernel/pipe.c:49-120 | A visit can always do its next act, and can release the lock at its end if and only if it has woken everybody it owed |
| `PipeRuns.GivesUp` | kernel/pipe.c:77-80 | Releasing the lock without the wakeups owed, as pipewrite does when killed, keeps every sleeper heard if and only if nobody sleeps on a channel that was owed one |
| `Pipe.Accepted` | kernel/pipe.c:87 | A byte stored through the wrapped counter joins the stream behind all others and overwrites none that is still to be read |
| `Pipe.Removed` | kernel/pipe.c:110-112 | The byte fetched through the wrapped counter is the oldest one not yet removed |
| `PageTables.IndexOfAddress` | libs/riscv.h:356-359 | The index macro applied to an address gives the index of its page number |
| `PageTables.IndexInjective` | libs/riscv.h:356-359 | Two page numbers with the same three indices are equal |
| `PageTables.EntryParts` | libs/riscv.h:349-354 | PTE2PA and PTE_FLAGS undo PA2PTE and the or with the flags |
| `PageTables.EntryOfAddress` | kernel/vm.c:129-154 | PA2PTE and PTE2PA on page-aligned addresses, and which bits the flags are |
| `PageTables.ValidBit` | kernel/vm.c:129 | Setting PTE_V changes no other bit |
| `PageTables.NoUserParts` | kernel/vm.c:417 | Clearing PTE_U keeps the page and every other flag |
| `PageTables.WriteLow` | kernel/vm.c:199-219 | Writing a bottom-level entry changes the translation of one page of one table, although tables share subtrees |
| `PageTables.AddTable` | kernel/vm.c:125-130 | Hanging a zeroed page below an empty entry changes no translation |
| `PageTables.Inherit` | kernel/exec.c:61-64 | The stack's subtree can pass from one top-level page to another that has the same entry |
| `VirtualMemory.Kernel.constructor` | kernel/kalloc.c:30-49 | Exactly the pages from the end of the kernel to PHYSTOP are on the free list |
| `VirtualMemory.Kernel.KAlloc` | kernel/kalloc.c:79-94 | 0 exactly if the list is empty; otherwise its first page leaves it and no translation changes |
| `VirtualMemory.Kernel.KFree` | kernel/kalloc.c:56-73 | The page is first on the list; no translation changes |
| `VirtualMemory.Kernel.Walk` | kernel/vm.c:115-133 | The bottom-level page found is the one the three indices lead to; new table pages change no translation; without alloc nothing changes; with alloc it takes exactly the pages that are missing on the way, and fails exactly if fewer are free |
| `VirtualMemory.Kernel.MapPages` | kernel/vm.c:199-219 | Exactly the pages [va, va + size) touches get the consecutive frames and the flags; on -1 memory is out and only a first part of them has; no other translation of any table changes; for one page it fails exactly if more table pages are missing than are free, and takes just those |
| `VirtualMemory.Kernel.UnmapPage` | kernel/vm.c:234-244 | One page loses its translation and, if asked for, its frame becomes free; it panics exactly if the page is not mapped |
| `VirtualMemory.Kernel.VmUnmap` | kernel/vm.c:225-246 | Exactly the pages of the interval lose their translation and, if asked for, exactly their frames become free, each once; it panics exactly if one of them is not mapped, after those in front of it |
| `AddressSpaces.UvmAlloc` | kernel/vm.c:285-314 | On success both tables map exactly the pages of newsz to the same frames, the kernel's without PTE_U, the new ones zeroed and with every permission; on each of the three failures every table translates as before and no page has changed hands except into table pages; it succeeds if and only if the frames and the table pages still missing are free |
| `AddressSpaces.UvmDealloc` | kernel/vm.c:321-333 | Both tables lose exactly the pages between the two sizes, and exactly their frames become free; it panics if and only if newsz < oldsz and the pages to go reach beyond those the process has, and then no frame is freed |
| `AddressSpaces.GrowProc` | kernel/proc.c:314-331 | The size moves by n and both tables with it; it fails if and only if n > 0 and too few pages are free for frames and table pages; a decrease beyond zero does nothing and succeeds; no panic |
| `AddressSpaces.UvmCopy` | kernel/vm.c:372-405 | On success parent and child have the same bytes and flags in frames of their own, in lockstep; on each failure every table translates as before; it succeeds if and only if the frames and table pages it needs are free |
| `AddressSpaces.CostBare` | kernel/vm.c:372-405 | In two tables without user pages, n pages take n frames and in each table one page for every 512 and one for every 2^18 of them, begun or full |
| `AddressSpaces.GrowsOn` | kernel/vm.c:285-314 | Whether the next of several growths fits can be read off the state before the first: costs add up |
| `AddressSpaces.UvmClear` | kernel/vm.c:410-418 | Exactly one translation changes, by PTE_U alone, and the tables stay in lockstep |
| `AddressSpaces.NewPage` | kernel/vm.c:295-312 | The body of both loops: the page is in both tables, or in none, or left in the user table alone for the caller to unwind; it succeeds exactly if a frame and the missing table pages are free |
| `AddressSpaces.UnwindGrow` | kernel/vm.c:306-311 | The user table gives back one page more than the kernel table |
| `AddressSpaces.UnwindCopy` | kernel/vm.c:401-404 | The kernel table gives back ki pages, then the user table i pages |
| `AddressSpaces.Restored` | kernel/vm.c:296-311 | Once the new pages are gone every table translates as it did at the start |
| `AddressSpaces.FewPages` | kernel/vm.c:285-314 | A process never has more pages than there is physical memory, so no request is too large for the loop |
| `UserCopies.WalkAddr` | kernel/vm.c:139-156 | The frame behind a user page, or 0 if the address is too high, not mapped or not the user's |
| `UserCopies.ProcessHeld` | kernel/proc.c:199-227 | For every process a user may touch only frames of its own: neither trampoline nor trapframe page has PTE_U |
| `UserCopies.CopyIn` | kernel/vm.c:460-479 | Succeeds if and only if a user may touch every page of the range, and returns what those addresses hold |
| `UserCopies.CopyOut` | kernel/vm.c:424-443 | Succeeds if and only if a user may touch every page of the range; exactly those bytes are then the source's; otherwise a prefix was stored |
| `UserCopies.CopyIn2` | kernel/vm.c:482-490 | Refuses exactly by the size test; an accepted range that wraps around ends in a page fault; otherwise the bytes the user table leads to come back |
| `UserCopies.CopyOut2` | kernel/vm.c:446-454 | Refuses exactly by the size test, and then nothing changes; an accepted range that wraps around ends in a page fault; otherwise it stores where the user table leads to |
| `UserCopies.DirectIsWalking` | kernel/vm.c:424-490 | On a range the direct versions accept, the walking versions succeed if and only if no page of it has been through uvmclear |
| `UserCopies.ReadsOnce` | kernel/vm.c:460-490 | copyin and copyin2 return the same bytes |
| `UserCopies.StoredOnce` | kernel/vm.c:424-454 | copyout and copyout2 leave the same memory |
| `UserCopies.AcceptsInside` | kernel/vm.c:482-490 | An accepted range lies within the process if and only if its end does not wrap around 2^64 |
| `PageOwnership.FreeWalk` | kernel/vm.c:338-353 | Exactly the pages of a table without leaves become free, each once; no other table notices |
| `PageOwnership.KFreeWalk` | kernel/vm.c:585-597 | The same for a subtree of a kernel table, whose leaves are left alone |
| `PageOwnership.DropSubtree` | kernel/vm.c:600-610 | One turn of kvmfreeusr's loop |
| `PageOwnership.UvmFree` | kernel/vm.c:358-363 | Exactly what belongs to a user table becomes free: frames and table pages |
| `PageOwnership.KvmFree` | kernel/vm.c:613-624 | Exactly what belongs to one kernel table becomes free: not the user frames it maps, not the subtables all kernel tables share, the stack only if asked for |
| `ProcessPages.UvmCreate` | kernel/vm.c:251-259 | A table that translates nothing, or nothing has changed exactly if no page is free |
| `ProcessPages.ProcPagetable` | kernel/proc.c:199-227 | A user table with trampoline and trapframe only, made of three pages, or, exactly if fewer are free, each page has its old owner; the second mappages cannot fail |
| `ProcessPages.ProcKpagetable` | kernel/vm.c:562-581 | A kernel table with a stack of its own, readable and writable, made of four pages, whose every other entry outside user memory is kernel_pagetable's; nothing has changed exactly if none is free; with one to three, and only then, kvmfree unmaps a stack that is not there and vmunmap panics |
| `ProcessPages.ProcFreePagetable` | kernel/proc.c:232-237 | Exactly what belongs to the user table becomes free; trampoline and trapframe page do not |
| `ProcessPages.FreeProc` | kernel/proc.c:174-194 | Trapframe page and all that belongs to both tables become free, each page once; nothing else changes hands |
| `ProcessPages.AllocProc` | kernel/proc.c:127-168 | With at least eight free pages an empty process made of eight of them; with at most four each page has its old owner; with five, six or seven, and only then, the panic of proc_kpagetable; the new kernel table has kernel_pagetable's entries |
| `ProcessPages.AllocWith` | kernel/proc.c:127-168 | The same on machines with any number of pages, from boot on |
| `ProcessPages.Fork` | kernel/proc.c:336-382 | A child with a copy of the parent's n pages in frames of its own, if and only if 8 + n pages and twice the table pages for n pages are free; the panic of proc_kpagetable if and only if five to seven are; otherwise each page has its old owner and every table translates as before; the child's kernel table has kernel_pagetable's entries |
| `ProcessPages.Conserved` | kernel/proc.c:174-194 | Reclaiming what a new process has taken leaves the owner of every page as it was before the process |
| `ExecPages.Exec` | kernel/exec.c:44-179 | It succeeds if and only if nothing else goes wrong during the load, the first segment does not end at address 0, and the pages of the new image are free beside those of the old one: four, one for each page up to the highest segment and for the stack and its guard, and in both tables one for every 512 of these and one for every 2^18. Then the old image's pages are exchanged for the new one's; trapframe and kernel stack are kept, the new kernel table has every entry of the old one outside user memory, the guard page is not the user's; on every failure each page has its old owner and every table translates as before |
| `ExecPages.CopyKernelTable` | kernel/exec.c:56-64 | A kernel table with every entry of the old one but those of user memory, made of one page |
| `ExecPages.NewTables` | kernel/exec.c:58-80 | The two new tables, which take four pages, exactly if that many are free, or each page has its old owner |
| `ExecPages.GrowImage` | kernel/exec.c:93-95 | Growing the new image leaves the old process as it was, and succeeds exactly if all growths so far and this one together fit into the pages that were free before the first |
| `ExecPages.GuardPage` | kernel/exec.c:115 | The page below the stack can no longer be touched by the user |
| `ExecPages.Commit` | kernel/exec.c:152-163 | The old tables and frames become free, each page once, although both kernel tables lead to the stack in use |
| `ExecPages.Exchanging` | kernel/exec.c:152-163 | Who owns every page after the exchange |
| `ExecPages.Bad` | kernel/exec.c:166-178 | Everything the unfinished image took is free again |
| `ExecPages.BadEarly` | kernel/exec.c:166-178 | The same when there is no user table yet |
| `ShellGrammar.LineBack` | user/sh.c:489-503 | Parsing the minimally parenthesised tokens of any command tree with at most nine words a command rebuilds the tree |
| `ShellGrammar.LineFails` | user/sh.c:571-586 | Any tree with a command of ten or more words is rejected |
| `ShellGrammar.MapLineAt` | user/sh.c:489-590 | Parsing commutes with reading the words, so it depends on their places only |
| `Shell.ParseUndoesPrint` | user/sh.c:410-637 | The text of a command tree is accepted if and only if no command in it has more than nine words; then parsecmd rebuilds the tree and its words survive nulterminate |
| `ShellSyntax.SentenceParsed` | user/sh.c:500-590 | A grammar of command lines told apart from the parser, with words and redirections in any order in a simple command, blocks, pipelines, & and ;: every sentence of it is parsed as the tree it means, the words of a command in order at the bottom and its redirections in order around them, or rejected exactly if a command has more than nine words |
| `ShellSyntax.SentenceFound` | user/sh.c:500-590 | Whatever the parser accepts is such a sentence, and the tree is what that means |
| `ShellSyntax.AcceptsSentences` | user/sh.c:484-590 | Tokens are accepted, with a tree, if and only if they are a sentence that means it |
| `ShellSyntax.AcceptsLines` | user/sh.c:484-637 | A line is accepted by parsecmd, with a tree whose words read as strings survive nulterminate, if and only if its tokens are a sentence that means that tree |
| `ShellSyntax.SentenceRebuilt` | user/sh.c:484-637 | The text of any sentence gives its tree back, or is rejected exactly for a command of more than nine words |
| `Shell.WordsReadBack` | user/sh.c:594-637 | For every line that parses, after nulterminate each word and file name reads as exactly its token: no NUL lands inside another one |
| `Shell.TerminatedKeeps` | user/sh.c:594-637 | A NUL stands behind every word and inside none |
| `Shell.LexSpell` | user/sh.c:410-452 | Scanning the text of a token sequence gives the tokens back |
| `Shell.LexInk` | user/sh.c:410-461 | On any line the tokens are, in order, exactly the characters that are not white space: none is lost or read twice |
| `Shell.Codes` | user/sh.c:406-407 | Which characters are white space and which are symbols |
| `Shell.Parser.PeekAt` | user/sh.c:455-464 | Says whether the next token is one of the symbols; the cursor moves over white space only |
| `Shell.Parser.GetToken` | user/sh.c:410-452 | Returns the next token with the pointers around a word; the cursor moves forward whenever there is one |
| `Shell.Parser.ParseRedirs` | user/sh.c:519-541 | Computes Redirs on the tokens that follow |
| `Shell.Parser.ParseExec` | user/sh.c:560-590 | Computes ExecAt on the tokens that follow |
| `Shell.Parser.ParseBlock` | user/sh.c:544-557 | Computes ExecAt where a parenthesis opens |
| `Shell.Parser.ParsePipe` | user/sh.c:506-516 | Computes PipeAt on the tokens that follow |
| `Shell.Parser.ParseLine` | user/sh.c:489-503 | Computes LineAt on the tokens that follow; the mutual recursion ends because the cursor only moves forward |
| `Shell.Parser.ParseCmd` | user/sh.c:472-486 | Accepts a line exactly if LineAt uses up all its tokens |
| `Shell.Parser.NulTerminate` | user/sh.c:594-637 | The recursion writes exactly the NULs of Terminated |

## Left out

- FatVolume.Volume.EWrite: the count is an integer, while the C function returns a uint as an int; a count of 2^31 or more would come back negative (also ERead)
- FatVolume.Volume.ReadFat: the sectors of the FAT are one sequence of words apart from the data sectors, so a cluster number that leads into the FAT region is not modelled
- FatDirectory.ENext: starts with all 260 bytes of the name buffer zero; the code clears 256 of them, the others lie in the fields behind `filename` (RoundTrip does not rely on them)
- FatDirectory.ERemove: what the write at offset -1 hits is not modelled, the call ends there; nor is `eupdate`, which reads the same count
- FatDirectory.CreateEntry: for names `formatname` has trimmed (no blank or dot in front), of at most 255 bytes; `formatname` itself is not modelled
- EntryCache.Cache.Rename: an existing target always fails here; the code goes on when both are directories and the target is empty, but then with an offset that was never set, so that what it writes is undefined; the source's name is not one that is lost
- EntryCache.Cache.ERemove: for names that are not lost to the scan; what eremove frees for the others is RemoveExact, and with them a directory is outside StepTruthful and RenameStands from then on
- FatRuns.StepTruthful: a cached entry is its name's slot; that the cache holds at most one for a name is EntryCache
- EntryCache.Cache.EPut: each operation is one atomic step; the re-reading of the count outside the cache lock (kernel/fat32.c:787-790), entry locks, `etrunc` and `eupdate` inside `eput` are not part of it
- EntryCache.Cache.EAlloc: the running out of cache slots is a result here, a panic in the code (also in bget)
- BufferCache.Cache.BRead: ends where the caller has to wait; what it does once the owner has released is Awoken, with other clients' steps in between, and SleepLocks is about the waiting. A client that asks for a block it has already would wait for itself. `bpin` and `bunpin` are not modelled
- VirtualMemory.Kernel.Walk: a page is seen as 512 words while it is a table and as bytes while it is not; the free list's links are kept apart from both
- VirtualMemory.Kernel.MapPages: the panics (remap, unmapped, address too high) are preconditions
- AddressSpaces.UvmDealloc: for sizes of user memory, whose page count fits the int `npages`; above user memory the kernel table's entries are shared with all others
- AddressSpaces.UvmCopy: the panics for a missing page cannot happen for tables in lockstep, which is required
- UserCopies.CopyOut: `copyinstr` and `copyinstr2` are not modelled
- UserCopies.CopyIn2: a page fault in the kernel ends the call; how much of the range was copied before it is not stated (also CopyOut2, whose stored bytes are then unspecified)
- ProcessPages.ProcKpagetable: kernel_pagetable owns every page below it and has nothing at the user's and the stack's entries, as kvminit leaves it; kvminit itself is not modelled
- ProcessPages.AllocProc: the panic of proc_kpagetable ends the call with memory in an unspecified state; process table slots and file references of `fork` and `freeproc` are not part of it
- ExecPages.Exec: reading the file, `loadseg`, the argument bytes and the eput of the file are events at which the load may fail, not modelled further
- Scheduler.Keeps: `sleep` is entered with exactly one other lock, as sched demands; reparent's locking of a child is one step; fairness, and that `init` is woken for every reparented child (WaitExit.NoMissedExit leaves init out), are not claimed
- SleepWakeup.NoLostWakeup: every thread that makes a condition true under its lock is bound to call wakeup before it releases it, which SleepLocks and PipeRuns prove of the code they model; `dmac_wait_idle`, whose condition that lock does not protect, is outside
- SleepLocks.OneSleepHolder: releasesleep is called only by the thread that holds the lock, or was told so by holdingsleep, as all callers in the kernel do; the code does not check it
- Pipe.Pipe.Write: one visit under the pipe's lock at a time; a visit that sleeps and goes on later is two visits
- PipeRuns.PipeWakes: the visits after which Unwoken holds cannot release the lock in these runs; what happens if they do is GivesUp
- Heap.Allocator.Malloc: limited to requests that SbrkExact allows; memory is indexed in header units
- Shell.Parser.ParseCmd: syntax errors are a result, the text of the message and `panic` are not modelled; nor are `runcmd`, the environment and reading the line
- The memory model is sequentially consistent; fences, the TLB, accessed and dirty bits and trap entry are hardware
- Device drivers, the console, system call arguments, FAT mirroring, timestamps and the top four bits of a FAT word are left out: they would add input and output or easy members
