# Rustux, verified in Dafny

A model of the hard parts of the rustux kernel and proofs about them: how physical pages become
objects, page tables and finally the memory a new process sees; the two schedulers; the handle
tables; the kernel heap and the boot allocator; file cursors; the MADT parser; the clock
conversions. `dafny verify dfyconfig.toml` checks everything.

## How the model is built

| files | subsystem |
|---|---|
| `Memory.dfy` | physical memory as 4096-byte frames that are also 512 little-endian words; outcomes |
| `Pmm.dfy`, `PmmRuns.dfy` | the page allocator, and what holds over every run of it |
| `Vmo.dfy`, `VmoRuns.dfy` | virtual memory objects above it, and runs over any number of them |
| `PageTable.dfy`, `AddressSpace.dfy` | the hardware's four-level walk, and the code that edits the tables |
| `Elf.dfy`, `Loader.dfy` | ELF parsing, segment loading, and the end-to-end statement |
| `KernelSteps.dfy` | the methods as steps of the runs, and what other processes notice |
| `RunQueue.dfy`, `SchedulerSpec.dfy`, `Scheduler.dfy` | the thread scheduler over a five-level ring buffer |
| `RoundRobin.dfy` | the process table and the round-robin scheduler |
| `HeapSpec.dfy`, `Heap.dfy` | the linked-list heap's `allocate` |
| `HandleSpec.dfy`, `Handles.dfy` | handle tables, rights and reference counts |
| `Files.dfy` | descriptors and the two file cursors |
| `Madt.dfy`, `Boot.dfy`, `Tsc.dfy`, `Arithmetic.dfy` | MADT parser, boot allocator, clock |

Objects that the source updates in place are classes whose methods are proved against a value: the
page allocator against a map from page address to state, the run queue against five sequences, the
scheduler, heap and handle table against a state machine on values. Statements about whole runs are
lemmas about that value. Physical memory is one shared object, so nothing but the allocator's
promise keeps a data page and a page table apart, and that promise is what isolation is derived
from.

The main results:

- **Loading.** When `load_elf_process` succeeds, walking the new process's page table at any
  address of a segment yields the file's byte, or zero behind it, with the segment's permissions;
  where segments share a page the one later in the file is seen; the stack reads zero; everywhere else the
  process sees the kernel's frames; no kernel table changed (`Loader.LoadElfProcess`).
- **Cost.** Allocation loops for ever when nothing is free, so every operation above it can halt.
  Each contract counts the pages it takes from each zone, and it halts exactly when there are
  fewer Free ones than it needs: missing pages of a write, backed pages of a clone, missing tables
  of a mapping, and their sum over a whole load (`Pmm.Charged`, `AddressSpaces.Paid`).
- **Mapping.** `map_page` maps exactly one page and keeps all others; where the kernel already has
  a page table at that place the code writes into that very table, and where it has a 2 MB page
  the code writes into that page's memory. The exact condition for leaving the kernel's tables
  alone is proved for both (`AddressSpaces.AddressSpace.MapPage`), who sees the stray entry
  (`AddressSpaces.OverwriteSeen`, `OthersSee`), and which kernel pages a copied directory opens to
  the user (`PageTable.OpenedToUser`).
- **Isolation.** Over every run of writes, clones, resizes and table allocations, objects own
  disjoint pages, a backed byte changes only by a write to that very byte, a byte never written
  reads zero until its page is backed and then what the frame held, and a clone is a snapshot (`VmoRuns`); the methods are steps of such runs, and a load changes no
  translation and no byte of any existing process (`KernelSteps`).
- **Pages.** No page is handed out twice without a release in between (`PmmRuns`).
- **Scheduling.** An operation keeps each Ready thread queued exactly once if and only if it queues
  nobody in a full level of 64, makes no running thread yield and blocks no queued thread; over
  every run the first step that does is where this ends. A runnable process is passed by in at most its cyclic distance
  of calls plus 256 for every removal that sets it back, exactly which removals do is proved, and
  so is that removing one process again and again can keep another waiting for any number of
  calls, while 256 * 256 calls suffice when each leaves once. Queue levels are first in, first out,
  and threads of one priority are dispatched in turn. Without removals, k
  runnable processes are picked once each in k calls.
- **Heap and boot memory.** The chunks of every run of `allocate` are disjoint, aligned and in
  bounds; after `init` a run of allocations wastes nothing but alignment and only moves upwards, because the chosen block's link is
  cleared before it is unlinked, and exactly when it runs dry for good is proved. Every
  interleaving of boot allocations is equivalent to a sequential one, and the addresses told to
  any two callers never overlap.
- **Handles.** Counts are exact, no chain of duplicates gains a right, no object has fewer
  references than handles, and a duplicate leaks a reference exactly when its table is full.

## Where code and documentation differ

The model follows the code.

- `pmm_alloc_page` never reports exhaustion: it loops for ever (outcome `Spin`, later `Halt`).
- `pmm_free_page` frees a page in any state, also a Reserved one.
- Newly backed object pages are not cleared, and `clone` copies eagerly although copy-on-write is
  described.
- `yield_cpu` marks the thread Ready before `schedule` tests for Running, so it is not queued again.
- A full level of the run queue drops a thread silently.
- `schedule` makes a Ready, queued idle thread the current one, and blocking that thread leaves it
  in the queue.
- `map_page` writes into a kernel page table, or into the memory of a kernel 2 MB page, when the
  kernel's directory slot is taken.
- An MADT entry of length 0 stops the parser's advance, and nanoseconds are cut to 64 bits.
- The ELF loader adds 64-bit numbers from the file without a check. As in the release build, which
  the build script makes, sums wrap around; a slice that then ends in front of its start panics.
- `HandleTable::duplicate` takes its reference before it looks for a slot.
- `remove_process` of the current process sets the scan position to PID 0 instead of clearing it.
- The heap rounds a split address with the mask of 39, which is not a power of two minus one.

Inputs at which such a difference shows, beside the exact conditions given in the table below:
`KernelSteps.OverwriteExample`, `KernelSteps.LargePageExample`, `KernelSteps.RootExample`,
`KernelSteps.StaleExample`, `PmmRuns.ReservedExample`, `Elf.OverflowExample`,
`SchedulerSpec.YieldExample`, `SchedulerSpec.CrowdExample`, `SchedulerSpec.BlockExample`,
`RoundRobin.RemovalExample`, `HandleSpec.LeakExample`, `HeapSpec.DryExample`, `Madt.StuckExample`,
`Tsc.WrapExample`.

## Model

| member | source | states |
|---|---|---|
| `Pmm.Manager.constructor` | src/mm/pmm.rs:258-288 | An allocator without arenas represents no pages |
| `Pmm.Manager.AddArena` | src/mm/pmm.rs:419-475 | Refused when 8 arenas exist, the region holds no page, or there is no room for its descriptors; on an aligned region apart from the others the known pages grow by exactly its pages, all Free |
| `Pmm.Manager.AllocPage` | src/mm/pmm.rs:504-606 | Hands out the lowest Free page of the first admitted arena that has one and marks only it Allocated; spins exactly when no admitted arena has a Free page; a charge of one page on the admitted zone |
| `Pmm.Manager.SetPage` | src/mm/pmm.rs:290-317 | One descriptor changes, and with it exactly one page of the view; allocated pages have one reference, free ones none |
| `Pmm.Manager.AllocContiguous` | src/mm/pmm.rs:651-696 | For two or more pages: the lowest all-Free run in the first admissible arena with one, all of it and nothing else Allocated; ERR_NO_MEMORY only when no admissible arena holds such a run |
| `Pmm.Manager.ScanWindow` | src/mm/pmm.rs:670-683 | The scan that restarts behind a non-free page never skips a feasible window |
| `Pmm.Manager.MarkRun` | src/mm/pmm.rs:684-691 | Exactly the pages of the run become Allocated |
| `Pmm.Manager.FreePage` | src/mm/pmm.rs:707-718 | The page becomes Free whatever it was; an address that is no page is refused and nothing changes |
| `Pmm.Manager.FreeInArena` | src/mm/pmm.rs:303-317 | The same inside one arena |
| `Pmm.Manager.FreeContiguous` | src/mm/pmm.rs:730-752 | Exactly the pages at the given steps become Free, when one arena holds the whole run |
| `Pmm.Manager.ReservePages` | src/mm/pmm.rs:776-803 | Exactly the pages of the rounded-down range become Reserved, when one arena holds the whole run; no reference count changes |
| `Pmm.Manager.ReserveInArena` | src/mm/pmm.rs:789-797 | One page becomes Reserved and keeps its count |
| `Pmm.Manager.CountFreePages` | src/mm/pmm.rs:755-764 | The sum over arenas is the number of distinct Free pages |
| `Pmm.Manager.CountFreeIn` | src/mm/pmm.rs:325-327 | One arena adds exactly its Free pages |
| `Pmm.PreservesTrans` | src/mm/pmm.rs:504-550 | Not disturbing pages that others hold composes over operations |
| `Pmm.ChargedTrans` | src/mm/pmm.rs:504-606 | Page charges on a zone add up over operations, and the first that halts decides |
| `Pmm.BillUser` | src/mm/pmm.rs:504-606 | With disjoint zones, a charge on the user zone adds to the bill of both, or shows that one of them had too little |
| `Pmm.BillKernel` | src/mm/pmm.rs:504-606 | So does a charge on the kernel zone |
| `PmmRuns.HandOutPages` | src/mm/pmm.rs:504-696 | Both allocation calls are hand-out steps of a run |
| `PmmRuns.ReleasePages` | src/mm/pmm.rs:707-752 | Both free calls are release steps of a run |
| `PmmRuns.WithholdPages` | src/mm/pmm.rs:776-803 | Reserving is a reserve step of a run |
| `PmmRuns.TakenUntilReleased` | src/mm/pmm.rs:707-718 | In every run a page stays Allocated or Reserved until a release names it |
| `PmmRuns.NoDoubleHandOut` | src/mm/pmm.rs:538-550 | In every run, between two hand-outs of one page it is released |
| `PmmRuns.ReservedStaysReserved` | src/mm/pmm.rs:776-803 | In every run a Reserved page is not handed out unless it is released first |
| `PmmRuns.ReservedIff` | src/mm/pmm.rs:707-803 | A call keeps a Reserved page Reserved exactly when it does not release it |
| `PmmRuns.ReservedExample` | src/mm/pmm.rs:707-718 | After boot the reserved first stack page is freed and handed out |
| `PmmRuns.PagesConserved` | src/mm/pmm.rs:290-317 | In every run the set of pages is constant and Free, Allocated and Reserved partition it |
| `PmmRuns.HandOutCount` | src/mm/pmm.rs:755-764 | A hand-out of n pages lowers the Free count by n |
| `PmmRuns.BootArenas` | src/init.rs:299-322 | The two regions of the boot code make valid, disjoint arenas of the stated zones, which share no page |
| `PmmRuns.InitEarly` | src/init.rs:299-432 | After boot exactly the two zones are known, all Free but the reserved kernel stack; the heap range lies in no arena, so its reservation is refused |
| `PmmRuns.ZoneOfPage` | src/init.rs:299-322 | With the boot layout, kernel pages come from the kernel zone and user pages from the user zone |
| `PmmRuns.ZonesApart` | src/init.rs:299-322 | With the boot layout, user and kernel requests compete for no page |
| `PmmRuns.BootAdmits` | src/init.rs:299-322 | Which of the two arenas serves which flags, for pages and for runs of pages |
| `PmmRuns.RunsAdmitted` | src/mm/pmm.rs:655-668 | The only request for a run that an arena does not serve |
| `VmoObject.Vmo.constructor` | src/object/vmo.rs:188-206 | A new object backs nothing and is rounded up to pages |
| `VmoObject.Vmo.Create` | src/object/vmo.rs:188-206 | Refuses size 0; otherwise an empty object of the rounded size |
| `VmoObject.Vmo.Resize` | src/object/vmo.rs:221-236 | Only resizable objects change, and only in size |
| `VmoObject.Vmo.Write` | src/object/vmo.rs:244-338 | Stores exactly the clamped range, backs exactly the pages it touches with pages that were Free, and leaves every other byte of memory that others hold alone; halts exactly when fewer user pages are Free than pages are missing |
| `VmoObject.Vmo.MissingPages` | src/object/vmo.rs:258-279 | First pass: exactly the touched pages that have no backing, once each |
| `VmoObject.Vmo.AddPages` | src/object/vmo.rs:282-294 | Second pass: each of them gets a page of its own that was Free; halts exactly when there are too few |
| `VmoObject.Vmo.StorePages` | src/object/vmo.rs:297-335 | Third pass: page by page, exactly the data reaches memory |
| `VmoObject.Vmo.Read` | src/object/vmo.rs:346-400 | Delivers the bytes of the object across pages, zero where unbacked, and leaves the rest of the buffer alone |
| `VmoObject.Vmo.Clone` | src/object/vmo.rs:407-472 | The clone reads as the parent did, on fresh pages, and disturbs nobody; an empty object is refused; halts exactly when fewer user pages are Free than the parent has |
| `VmoObject.Vmo.ClonePages` | src/object/vmo.rs:415-470 | The copy loop: every page of the parent once, at its cost |
| `VmoObject.Vmo.ClonePage` | src/object/vmo.rs:415-468 | One page of that copy; halts exactly when no user page is Free |
| `VmoObject.CopyPage` | src/object/vmo.rs:438-459 | The chunked copy moves a whole page |
| `VmoObject.ChunkStored` | src/object/vmo.rs:300-335 | One more chunk of a write that crosses pages |
| `VmoObject.StoredByte` | src/object/vmo.rs:244-400 | Read back after write: data inside the range, the old byte outside it on pages backed before, zero on pages still unbacked |
| `VmoObject.AppendNeed` | src/object/vmo.rs:258-279 | How many pages an append misses |
| `VmoRuns.StepKeepsInv` | src/object/vmo.rs:244-472 | Every operation keeps all objects backed by disjoint pages, none of them a page table |
| `VmoRuns.RunKeepsInv` | src/object/vmo.rs:244-472 | So does every run |
| `VmoRuns.StepKeepsByte` | src/object/vmo.rs:281-335 | An operation that does not write this very byte of this object leaves it |
| `VmoRuns.UnbackedReadsZero` | src/object/vmo.rs:346-400 | Over every run, a page never backed reads as zero until a write reaches it |
| `VmoRuns.BackedAsFound` | src/object/vmo.rs:282-335 | A byte of a newly backed page that the write does not cover is what the Free frame held |
| `VmoRuns.UncoveredByte` | src/object/vmo.rs:244-400 | Over every run, a byte no write covers reads zero until its page is backed, and from then on what the frame held at that moment |
| `VmoRuns.ByteStable` | src/object/vmo.rs:281-335 | Over every run, writes to other objects or other offsets never show |
| `VmoRuns.LastWriteWins` | src/object/vmo.rs:244-400 | Over every run, a read returns the last byte written there |
| `VmoRuns.CloneIsSnapshot` | src/object/vmo.rs:407-472 | Over every run, clone and parent each keep, at every byte, what the parent had when it was cloned, until a write to that very object reaches it |
| `VmoRuns.UntouchedObject` | src/object/vmo.rs:281-335 | An object nobody names keeps its pages and bytes |
| `PageTable.TableEntryBits` | src/process/address_space.rs:302-317 | A table entry made from a page is present, writable, user and points to it |
| `PageTable.PteBits` | src/process/address_space.rs:449-464 | A final entry is present, user, writable iff PF_W, and points to the frame |
| `PageTable.OrUserBits` | src/process/address_space.rs:310-314 | Setting the USER bit changes no other bit |
| `PageTable.EntryLayout` | src/process/address_space.rs:446-464 | Which bits of an entry are present, writable, user and large, and where the frame number lies |
| `PageTable.LargeLayout` | src/process/address_space.rs:282-444 | Where a large page lies |
| `PageTable.WalkWrittenOut` | src/process/address_space.rs:254-470 | The hardware walk as four table reads with all its early ends and the conjunction of permissions |
| `PageTable.PageOfIndices` | src/process/address_space.rs:28-42 | The four indices are the base-512 digits of the page number |
| `PageTable.SamePage` | src/process/address_space.rs:28-42 | Four equal indices mean the same page |
| `PageTable.PrivateWalk` | src/process/address_space.rs:254-470 | Below a private page table the hardware walk reads that table |
| `PageTable.SharedWalk` | src/process/address_space.rs:282-318 | Everywhere else it reaches the same frame as the kernel, up to the USER bit |
| `PageTable.SharedExact` | src/process/address_space.rs:282-420 | The exact translation there: the last private directory answers with the kernel entry opened to the user, the levels below as they are |
| `PageTable.OpenedToUser` | src/process/address_space.rs:310-314 | Below a copied directory a large kernel page is user-accessible, and a smaller one exactly when the entries below already allow it |
| `PageTable.InstallKeepsTree` | src/process/address_space.rs:282-444 | Linking a fresh copied or zeroed table keeps all tables on a mapped path private and the rest equal to the kernel up to the USER bit |
| `PageTable.PteKeepsTree` | src/process/address_space.rs:449-464 | So does writing a final entry |
| `PageTable.GrewKeepsWalk` | src/process/address_space.rs:282-444 | Splitting the tables on the way to one address changes the frame of no address |
| `PageTable.KernelWalkSame` | src/process/address_space.rs:254-470 | Untouched kernel tables walk as before |
| `PageTable.TreeWalkSame` | src/process/address_space.rs:254-470 | Nothing but the tables decides what a process sees |
| `PageTable.StoreKeepsTree` | src/process/address_space.rs:427-464 | A store into a page table the kernel uses in one place keeps every process tree over that kernel |
| `PageTable.StoreSeen` | src/process/address_space.rs:427-464 | Kernel and every process see such an entry at that page |
| `PageTable.StoreUnseen` | src/process/address_space.rs:427-464 | And at no other page: kernel translations and process frames stay |
| `PageTable.KernelHole` | src/process/address_space.rs:427-444 | An empty PD slot of the kernel means the kernel maps nothing there |
| `AddressSpaces.AddressSpace.constructor` | src/process/address_space.rs:59-75 | The object of a root that owns only its root table |
| `AddressSpaces.AddressSpace.New` | src/process/address_space.rs:87-146 | A fresh root that walks exactly as the kernel does everywhere; halts exactly when no kernel page is Free |
| `AddressSpaces.AddressSpace.AllocPageTable` | src/process/address_space.rs:477-484 | A table page that was Free, now Allocated; halts exactly when there is none |
| `AddressSpaces.AddressSpace.EnsureTable` | src/process/address_space.rs:282-420 | The table below is private afterwards, with the contents the kernel had; the frame of no address changes; costs a page exactly when it was not private |
| `AddressSpaces.AddressSpace.EnsurePt` | src/process/address_space.rs:427-444 | An empty slot gets a zeroed private table, any other entry is used as it stands; costs a page only in the first case |
| `AddressSpaces.AddressSpace.EnsurePath` | src/process/address_space.rs:254-444 | All levels above the final entry: private as far as the kernel leaves room, at the cost of the missing tables |
| `AddressSpaces.AddressSpace.MapPage` | src/process/address_space.rs:254-470 | Where the kernel has nothing in the PD slot: the page walks to exactly the frame, writable iff PF_W, every other page keeps its frame, no kernel word changes. Where it has a page table or a 2 MB page: one word of that table, or of the first frame of that page, is overwritten, and the kernel tables are left alone exactly when that frame is none of them or held the same entry. Halts exactly when fewer kernel pages are Free than tables missing |
| `AddressSpaces.OverwriteShows` | src/process/address_space.rs:427-464 | Writing an entry into a kernel table goes unseen exactly when the very same entry was there |
| `AddressSpaces.OverwriteShowsIff` | src/process/address_space.rs:427-464 | An overwrite leaves the kernel tables alone exactly when the frame is none of them, or held the same entry |
| `AddressSpaces.OverwriteSeen` | src/process/address_space.rs:427-464 | In a page table the kernel uses in one place: kernel and process see the new entry at that page, all other pages stay, the process stays valid |
| `AddressSpaces.OthersSee` | src/process/address_space.rs:427-464 | And so does every other process over that kernel |
| `AddressSpaces.LargePageStays` | src/process/address_space.rs:427-464 | On a 2 MB kernel page whose first frame is no table and not Free, the mapping has no effect: the address still walks to the large page |
| `AddressSpaces.AddressSpace.MapVmo` | src/process/address_space.rs:166-245 | All pages of the object end up mapped, no later step undoes an earlier one, addresses outside keep their frames; fails only on an unaligned address, a missing page or page zero; halts exactly when fewer kernel pages are Free than tables missing |
| `AddressSpaces.CopyShared` | src/process/address_space.rs:310-314 | A copied table equals the original with the USER bit set on present entries |
| `AddressSpaces.CopyEntries` | src/process/address_space.rs:126-137 | A range of entries is copied bit for bit |
| `AddressSpaces.ZeroTable` | src/process/address_space.rs:107-113 | A cleared table has no present entry |
| `Elf.ElfHeaderRoundTrip` | src/exec/elf.rs:132-197 | Parsing inverts the 64-bit file header layout |
| `Elf.ElfHeaderInverse` | src/exec/elf.rs:132-197 | Every file whose header parses has that layout |
| `Elf.ElfHeaderBytes` | src/exec/elf.rs:132-197 | Which bytes of the file each field of the file header is made of, byte by byte |
| `Elf.ValidateElfHeader` | src/exec/elf.rs:296-318 | Accepts exactly x86-64 executables with a program header table of entries of at least 56 bytes |
| `Elf.ProgramHeaderRoundTrip` | src/exec/elf.rs:225-270 | Parsing inverts the program header layout, also in longer entries |
| `Elf.ProgramHeaderBytes` | src/exec/elf.rs:225-270 | The same for a program header |
| `Elf.ParseProgramHeaders` | src/exec/elf.rs:211-280 | The loop reads the entries that lie inside the file, in order; it panics exactly when the end of the first entry wraps to a place inside the file |
| `Elf.HeadersAtIndex` | src/exec/elf.rs:211-280 | Entry i is the header at phoff + i * phentsize; the list is short only where the file ends |
| `Elf.LoadsExact` | src/exec/elf.rs:358-365 | The load table keeps exactly the LOAD entries, as a set |
| `Elf.LoadsInOrder` | src/exec/elf.rs:358-365 | It keeps them at strictly ascending positions: in file order, none twice, none left out |
| `Elf.LoadTableInOrder` | src/exec/elf.rs:358-377 | Of more than 16 exactly the first 16 remain |
| `Elf.NonEmptyInOrder` | src/exec/elf.rs:439-444 | Skipping empty entries keeps the order too |
| `Elf.SegmentsInOrder` | src/exec/elf.rs:344-444 | Down to the file: segment k is the program header at entry jx[k] with jx ascending, and an entry left out is no LOAD entry, empty, or behind 16 others |
| `Elf.NonEmptyExact` | src/exec/elf.rs:439-444 | The result keeps exactly the entries that occupy memory |
| `Elf.WrappedChecks` | src/exec/elf.rs:423-437 | The bounds checks on 64-bit sums: when a segment is refused, when slicing panics, and that otherwise it lies in the file |
| `Elf.WrappedSize` | src/exec/elf.rs:446-447 | Rounding up on 64 bits is rounding up, or 0 for the last 4095 sizes |
| `Elf.OverflowExample` | src/exec/elf.rs:423-451 | A segment that panics and one that is refused for its size |
| `Elf.FineIff` | src/exec/elf.rs:344-481 | A file is fine exactly when its header is accepted and table and segments lie in the file and no sum wraps |
| `Elf.LoadSegment` | src/exec/elf.rs:423-481 | The object holds the file bytes followed by zeros, on exactly the pages needed, all of them Free before; refused exactly when the rounded size wraps to 0; halts exactly when there are fewer Free user pages than that |
| `Elf.WritePiece` | src/exec/elf.rs:461-480 | One more piece of a segment; halts only when there are fewer Free user pages than the image up to its end needs |
| `Elf.ImageGrows` | src/exec/elf.rs:461-481 | A piece written behind the bytes already there extends the image |
| `Elf.LoadSegments` | src/exec/elf.rs:423-481 | The loop over the load table: each non-empty entry as its own image on its own pages; the first entry that is not fine decides between error and panic; the pages add up |
| `Elf.LoadElf` | src/exec/elf.rs:344-650 | Succeeds only on fine files, fails only on refused ones; the result is the non-empty ones of the first 16 LOAD entries, in order, each as its own image on its own pages; finishes with exactly their pages taken; unless the file panics, halts only with too few Free user pages |
| `Loader.LoadElfProcess` | src/exec/process_loader.rs:48-134 | End to end: every byte of every segment that no later segment or the stack covers, the zeroed stack and the kernel frames elsewhere, as seen through the new page table; kernel tables and everything others hold untouched; fails only on refused files, unaligned segments or page zero; success takes exactly the counted user and kernel pages, and unless the file panics halting means that one zone had fewer |
| `Loader.ApartAllVisible` | src/exec/process_loader.rs:57-92 | Of a segment on pages of its own the process sees every byte |
| `Loader.CoversIff` | src/exec/process_loader.rs:57-92 | A segment covers exactly the pages that hold one of its bytes |
| `Loader.MapSegments` | src/exec/process_loader.rs:57-92 | The loop keeps every page mapped so far unless a later segment covers it, at the cost of the missing tables |
| `Loader.MakeStack` | src/exec/process_loader.rs:94-116 | An object of zeros on pages that were Free; halts exactly when fewer user pages are Free than it needs |
| `Loader.MapStack` | src/exec/process_loader.rs:94-134 | Mapping the stack keeps all segments visible outside the stack page |
| `Loader.MappedByte` | src/exec/process_loader.rs:57-126 | A byte of a mapped object is what the hardware fetches |
| `Loader.SegmentSeen` | src/exec/process_loader.rs:57-92 | A mapped image is visible byte by byte, except where something later covers it |
| `KernelSteps.WriteStep` | src/object/vmo.rs:244-338 | The write method is a write step of the object runs, halting included |
| `KernelSteps.CloneStep` | src/object/vmo.rs:407-472 | The clone method is a clone step |
| `KernelSteps.ResizeStep` | src/object/vmo.rs:221-236 | The resize method is a resize step, or changes nothing |
| `KernelSteps.CreateStep` | src/object/vmo.rs:188-206 | The create method is a create step, or changes nothing |
| `KernelSteps.MapStep` | src/process/address_space.rs:166-245 | Mapping an object into a process is a table step: it touches no byte of any object |
| `KernelSteps.NewStep` | src/process/address_space.rs:87-146 | So is making a new address space |
| `KernelSteps.OtherProcessKept` | src/exec/process_loader.rs:48-134 | Whatever keeps the pages others hold, as a load does, leaves every existing process with the same translations and the same bytes |
| `KernelSteps.OverwriteExample` | src/process/address_space.rs:427-464 | A concrete kernel whose page table at 0x4000 the mapping of page 0 of a new process overwrites |
| `KernelSteps.MapFirstPage` | src/process/address_space.rs:87-464 | Three concrete kernels: the word taken for the page-table entry is overwritten, and kernel tables change exactly when it lies in one |
| `KernelSteps.LargePageExample` | src/process/address_space.rs:427-464 | A concrete 2 MB kernel page whose first word is overwritten, and no table |
| `KernelSteps.RootExample` | src/process/address_space.rs:427-464 | The same where the page starts with the kernel root table: its first entry is overwritten |
| `KernelSteps.StaleExample` | src/object/vmo.rs:244-400 | One byte of a new object is written, and the byte beside it reads what the frame held |
| `RunQueues.RunQueue.constructor` | src/sched/state.rs:94-102 | Five empty levels |
| `RunQueues.RunQueue.Enqueue` | src/sched/state.rs:105-118 | By position: with room the entry is the last of its level and all others stay; with 64 entries nothing changes |
| `RunQueues.RunQueue.Dequeue` | src/sched/state.rs:121-134 | The oldest entry of the highest non-empty level; None only when all are empty |
| `RunQueues.RunQueue.Remove` | src/sched/state.rs:147-172 | Deletes the first entry of the thread, keeps the order of the rest across the wrap; false only when absent |
| `RunQueues.FirstInFirstOut` | src/sched/state.rs:105-134 | Over every run, what was in a level and what entered it is, in that order, what left it and what is still there |
| `RunQueues.RanksAscend` | src/sched/state.rs:34-45 | The five priorities, lowest first |
| `RunQueues.RunQueue.CloseGap` | src/sched/state.rs:159-166 | The in-ring shift removes one position |
| `RunQueues.PushHolds` | src/sched/state.rs:105-118 | A slot written at the tail extends the sequence the ring holds |
| `RunQueues.PopHolds` | src/sched/state.rs:121-134 | Advancing the head drops its first element |
| `RunQueues.ShiftOne` | src/sched/state.rs:159-163 | One shift step, across the wrap |
| `SchedulerSpec.ScheduleConservesIff` | src/sched/scheduler.rs:129-191 | schedule keeps each Ready thread queued exactly once and only the current one Running, exactly when the thread it preempts finds room in its level |
| `SchedulerSpec.DispatchLoses` | src/sched/scheduler.rs:93-191 | A preempted thread whose level is full ends up Ready and in no queue |
| `SchedulerSpec.AddConserves` | src/sched/scheduler.rs:52-72 | Adding a fresh Ready thread to a level with room conserves, also when it becomes the current one of an idle scheduler |
| `SchedulerSpec.AddConservesIff` | src/sched/scheduler.rs:52-72 | It conserves exactly when its level has room |
| `SchedulerSpec.CrowdExample` | src/sched/scheduler.rs:52-72 | With n queued threads of one priority one more is conserved exactly when n is below 64 |
| `SchedulerSpec.BlockConserves` | src/sched/scheduler.rs:217-225 | Blocking conserves when the current thread is not Ready, with the scheduling that follows |
| `SchedulerSpec.BlockConservesIff` | src/sched/scheduler.rs:217-225 | It conserves exactly when the current thread is not Ready or is the next in the queue |
| `SchedulerSpec.BlockLeavesEntry` | src/sched/scheduler.rs:217-225 | Otherwise a thread that is not Ready stays in the queue |
| `SchedulerSpec.BlockExample` | src/sched/scheduler.rs:174-225 | An idle thread made by schedule and blocked after a High thread came in |
| `SchedulerSpec.WakeConservesIff` | src/sched/scheduler.rs:228-248 | Waking a blocked thread conserves exactly when its level has room |
| `SchedulerSpec.RemoveConserves` | src/sched/scheduler.rs:75-90 | Removing a thread always conserves |
| `SchedulerSpec.RoomInLevel` | src/sched/scheduler.rs:93-109 | With at most 64 threads per priority an unqueued thread always finds room in its level |
| `SchedulerSpec.PushKeeps` | src/sched/scheduler.rs:93-109 | Queueing the one missing Ready thread completes the queue |
| `SchedulerSpec.PopKeeps` | src/sched/scheduler.rs:129-141 | Taking the top entry leaves only its thread missing |
| `SchedulerSpec.HighestReadyRuns` | src/sched/scheduler.rs:129-191 | The dispatched thread was Ready and no Ready thread has a higher priority |
| `SchedulerSpec.ScheduleExact` | src/sched/scheduler.rs:129-191 | Everything schedule does to the threads: the picked one, the preempted one, nobody else; with an empty queue the current one stays |
| `SchedulerSpec.ScheduleIdle` | src/sched/scheduler.rs:174-190 | The idle thread it makes when there is nobody |
| `SchedulerSpec.PreemptedLast` | src/sched/scheduler.rs:129-150 | A preempted thread goes behind everyone of its priority |
| `SchedulerSpec.BlockExact` | src/sched/scheduler.rs:217-225 | A blocked running thread has the state asked for, also after the scheduling |
| `SchedulerSpec.WakeExact` | src/sched/scheduler.rs:228-248 | A woken thread is Ready; exactly the three blocked states can be woken |
| `SchedulerSpec.AddExact` | src/sched/scheduler.rs:52-72 | An added thread is stored as it is |
| `SchedulerSpec.EntriesExact` | src/sched/scheduler.rs:93-109 | What a queue entry holds, and who gets one |
| `SchedulerSpec.StepInTurn` | src/sched/scheduler.rs:52-248 | What each operation does to the place of a waiting thread |
| `SchedulerSpec.InTurn` | src/sched/scheduler.rs:52-248 | Over every run, while nothing of higher priority waits, the thread at position k is dispatched by the k+1-th dispatch at the latest, and exactly then if no thread is removed |
| `SchedulerSpec.StepConservesIff` | src/sched/scheduler.rs:52-248 | From a conserved state an operation conserves exactly when it queues nobody in a full level, makes no running thread yield and blocks no queued thread that is not the next |
| `SchedulerSpec.RunConservesIff` | src/sched/scheduler.rs:52-248 | Every run from the empty scheduler conserves up to a point exactly when all operations before it fit |
| `SchedulerSpec.FitsWhenFew` | src/sched/scheduler.rs:52-248 | With at most 64 threads of each priority everything fits but the yield of a running thread and the block of a queued one |
| `SchedulerSpec.RunConserves` | src/sched/scheduler.rs:52-248 | So every run from the empty scheduler with at most 64 threads of each priority and neither of these two conserves |
| `SchedulerSpec.RunOneRuns` | src/sched/scheduler.rs:129-248 | In every run, yields included, at most the current thread is Running |
| `SchedulerSpec.YieldConservesIff` | src/sched/scheduler.rs:204-214 | A yield conserves exactly when there is no running thread to yield |
| `SchedulerSpec.YieldLoses` | src/sched/scheduler.rs:204-214 | Otherwise the yielding thread is Ready, unchanged but for its count, and in no queue |
| `SchedulerSpec.YieldExample` | src/sched/scheduler.rs:204-214 | A concrete state in which that happens |
| `Schedulers.Scheduler.constructor` | src/sched/scheduler.rs:40-49 | The empty state |
| `Schedulers.Scheduler.FindThread` | src/sched/scheduler.rs:112-126 | The slot of the thread, or None when it is absent |
| `Schedulers.Scheduler.EnqueueThread` | src/sched/scheduler.rs:93-109 | The queueing step of the state machine |
| `Schedulers.Scheduler.AddThreadTo` | src/sched/scheduler.rs:52-72 | The adding step; refused exactly when 1024 threads exist |
| `Schedulers.Scheduler.RemoveThreadFrom` | src/sched/scheduler.rs:75-90 | The removing step, with the thread removed |
| `Schedulers.Scheduler.ScheduleNext` | src/sched/scheduler.rs:129-191 | The scheduling step, with the thread chosen |
| `Schedulers.Scheduler.YieldCpu` | src/sched/scheduler.rs:204-214 | The yielding step |
| `Schedulers.Scheduler.BlockCurrentThread` | src/sched/scheduler.rs:217-225 | The blocking step |
| `Schedulers.Scheduler.WakeThread` | src/sched/scheduler.rs:228-248 | The waking step, with its error cases |
| `RoundRobin.ProcessTable.constructor` | src/process/table.rs:267-274 | An empty table |
| `RoundRobin.ProcessTable.AllocPid` | src/process/table.rs:298-318 | The lowest unused PID at or above the counter; None exactly when there is none below 256; never hands a PID out again |
| `RoundRobin.ProcessTable.Insert` | src/process/table.rs:325-334 | Fills the slot of the PID |
| `RoundRobin.ProcessTable.Remove` | src/process/table.rs:347-358 | Empties the slot and clears current if it was this process |
| `RoundRobin.ProcessTable.FindNextRunnable` | src/process/table.rs:361-381 | The runnable process nearest in cyclic PID order behind the given one; None exactly when nothing is runnable |
| `RoundRobin.NextExact` | src/process/table.rs:361-381 | In plain PIDs: the first Ready or Running one from 0, or from behind the current one, upwards and around |
| `RoundRobin.NoneExact` | src/process/table.rs:361-381 | Without a pick every process is Blocked, Zombie or Dead |
| `RoundRobin.RoundRobinScheduler.Schedule` | src/sched/round_robin.rs:96-119 | One scheduling step on table and position |
| `RoundRobin.RoundRobinScheduler.RemoveProcess` | src/sched/round_robin.rs:309-316 | The position of a leaving current process becomes PID 0 |
| `RoundRobin.StepRunsPick` | src/sched/round_robin.rs:96-119 | After a call exactly the pick is Running, no process is lost, and only the states of the pick and its predecessor change |
| `RoundRobin.StepKeepsRunnable` | src/sched/round_robin.rs:96-119 | A call changes which process runs but not which are runnable |
| `RoundRobin.DistanceFrom` | src/process/table.rs:361-381 | How the cyclic distance to a process shrinks when another one is picked |
| `RoundRobin.SetBackIff` | src/sched/round_robin.rs:309-316 | Removing the current process c lengthens the way to p exactly when c > 0 and p is 0 or above c |
| `RoundRobin.CallCloser` | src/sched/round_robin.rs:96-119 | A call that passes a runnable process by brings the scan closer to it |
| `RoundRobin.BoundedWaiting` | src/sched/round_robin.rs:96-119 | With arbitrary changes to other processes between calls, and removals of the current one, a process that stays runnable is passed by in at most its cyclic distance of calls, plus 256 for every removal that sets it back |
| `RoundRobin.PickedInTime` | src/sched/round_robin.rs:96-119 | So with r removals of the current process it is picked within 256 * (r + 1) calls |
| `RoundRobin.PickedAfterAll` | src/sched/round_robin.rs:96-316 | When every process leaves at most once, within 256 * 256 calls, whatever else happens |
| `RoundRobin.RemovalExample` | src/sched/round_robin.rs:309-316 | After 5 it is the turn of 6, but when 5 is removed 1 comes first |
| `RoundRobin.RemovalsStarve` | src/sched/round_robin.rs:309-316 | Where one process is removed again and again, for any number of calls there is a run that never picks a process which is always runnable |
| `RoundRobin.NextInRound` | src/process/table.rs:361-381 | Within a round the next pick is the next member in cyclic order |
| `RoundRobin.RoundPrefix` | src/sched/round_robin.rs:96-119 | The first n picks are the n members met first, in order |
| `RoundRobin.OneRound` | src/sched/round_robin.rs:96-119 | With k runnable processes any k calls pick each exactly once, in cyclic PID order |
| `HeapSpec.TotalSize` | src/mm/allocator.rs:103-106 | Room for header and payload, at least a minimal block, and no more |
| `HeapSpec.AlignUp` | src/mm/allocator.rs:378-379 | The least aligned address at or above |
| `HeapSpec.AlignUpIsMask` | src/mm/allocator.rs:378-379 | For a power of two that is the bitwise mask of the source |
| `HeapSpec.AlignHeader` | src/mm/allocator.rs:606-609 | The mask of 39 yields an 8-aligned address at most 39 above |
| `HeapSpec.AlignHeaderIsMask` | src/mm/allocator.rs:606-609 | That function is the bitwise mask of 39, at every address |
| `HeapSpec.FirstFit` | src/mm/allocator.rs:343-385 | The first block of the list that suits, none before it does |
| `HeapSpec.SplitInside` | src/mm/allocator.rs:601-698 | The parts of a split lie inside the block, apart from each other, the rest 8-aligned and at least 1024 bytes |
| `HeapSpec.SplitExact` | src/mm/allocator.rs:601-698 | Exactly what a split gives: below 1024 spare bytes the whole block; otherwise a block that ends with the payload and a rest at the masked address fewer than 40 bytes behind |
| `HeapSpec.RefusedIff` | src/mm/allocator.rs:343-385 | A request is refused exactly when it is empty or no free block has room for header, aligned payload and minimal size |
| `HeapSpec.ListExact` | src/mm/allocator.rs:446-724 | After a success the list is the split-off block and what stood in front of the chosen one; nothing behind it |
| `HeapSpec.AllocateKeepsOk` | src/mm/allocator.rs:219-774 | Every call keeps all free and handed-out blocks in bounds and pairwise apart, with payloads inside their blocks behind the header and aligned |
| `HeapSpec.RunKeepsOk` | src/mm/allocator.rs:219-774 | So does every run; no chunk is moved or given up; chunks and successful requests match one for one |
| `HeapSpec.RunDisjoint` | src/mm/allocator.rs:149-203 | After init on an 8-aligned region the chunks of any run are in bounds, aligned and disjoint |
| `HeapSpec.RunStacked` | src/mm/allocator.rs:446-560 | In runs of allocations there is at most one free block and it lies above everything handed out |
| `HeapSpec.RunTight` | src/mm/allocator.rs:446-698 | From init every address handed out is determined by the requests before it: each block starts at the masked end of the one before, fewer than 40 bytes behind, and so does the free block |
| `HeapSpec.TwoExample` | src/mm/allocator.rs:601-698 | Two requests for 100 bytes get 4136 and 4280 |
| `HeapSpec.DriesIff` | src/mm/allocator.rs:601-698 | Exactly when a request leaves the list empty |
| `HeapSpec.RunDryIff` | src/mm/allocator.rs:601-698 | A run leaves nothing free exactly when one of its requests dries the list up |
| `HeapSpec.DryExample` | src/mm/allocator.rs:601-698 | One request for 1000 of 2048 bytes leaves 1008 bytes that no later request gets |
| `HeapSpec.DryForever` | src/mm/allocator.rs:343-385 | Once the list is empty no request succeeds any more |
| `Heaps.LinkedListAllocator.constructor` | src/mm/allocator.rs:127-134 | Not initialised |
| `Heaps.LinkedListAllocator.Initialize` | src/mm/allocator.rs:149-203 | One free block over the whole region |
| `Heaps.LinkedListAllocator.Allocate` | src/mm/allocator.rs:219-774 | Walking and rewriting the headers does what the value-level step says, with the same result |
| `Heaps.LinkedListAllocator.Unlink` | src/mm/allocator.rs:446-589 | Afterwards the list is what stood in front of the chosen block |
| `Heaps.LinkedListAllocator.Push` | src/mm/allocator.rs:689-698 | A new header at the front, the rest of the list unchanged |
| `Heaps.LinkedListAllocator.TakeBlock` | src/mm/allocator.rs:446-724 | Unlinking and splitting together |
| `Heaps.LinkedCut` | src/mm/allocator.rs:558-561 | Clearing a link cuts the list there |
| `HandleSpec.Reduced` | src/object/handle.rs:696-700 | A duplicate has no right the original lacks |
| `HandleSpec.ReducedExact` | src/object/handle.rs:96-125 | A right survives duplication exactly when the original has it and the mask names it or asks for the same rights |
| `HandleSpec.TallyFull` | src/object/handle.rs:618-634 | All 256 slots counted means none is empty |
| `HandleSpec.PutExact` | src/object/handle.rs:618-634 | The first empty slot holds exactly the handle, all others stay; a full table stays |
| `HandleSpec.DropExact` | src/object/handle.rs:657-678 | The slot is empty, all others stay |
| `HandleSpec.BumpExact` | src/object/handle.rs:325-334 | One count changes and no other |
| `HandleSpec.CountsExact` | src/object/handle.rs:325-717 | What every operation does to every count |
| `HandleSpec.AddExact` | src/object/handle.rs:618-634 | An added handle is stored as it is and is its own origin |
| `HandleSpec.DuplicateExact` | src/object/handle.rs:681-717 | Without the duplicate right nothing happens; with it the new handle has the fresh id, the same object, exactly the rights the mask leaves, and the same origin |
| `HandleSpec.StepAccounts` | src/object/handle.rs:618-717 | For every object, how each operation changes the references that no slot stands for |
| `HandleSpec.RunAccounts` | src/object/handle.rs:618-717 | The exact account of a whole run |
| `HandleSpec.StepKeepsTables` | src/object/handle.rs:618-717 | Every operation keeps count equal to the occupied slots and each handle on the object and within the rights of the root of its chain of duplicates |
| `HandleSpec.StepKeepsOk` | src/object/handle.rs:325-334 | And no object with fewer references than slots that name it |
| `HandleSpec.RunKeepsOk` | src/object/handle.rs:325-717 | So does every run over any number of tables |
| `HandleSpec.DuplicateLeaksIff` | src/object/handle.rs:702-716 | A duplicate leaves a reference nobody holds exactly when the table is full |
| `HandleSpec.LeakExample` | src/object/handle.rs:702-716 | A full table of 256 handles to one object: the refused duplicate leaves 257 references |
| `HandleSpec.AddThenRemove` | src/object/handle.rs:618-678 | Removing the handle just added restores the table and gives up its reference |
| `Handles.HandleTable.constructor` | src/object/handle.rs:604-611 | An empty table |
| `Handles.HandleTable.Add` | src/object/handle.rs:618-634 | The first empty slot holds exactly the handle and all others stay, stated on the slots; refused exactly when there is none |
| `Handles.HandleTable.Get` | src/object/handle.rs:637-650 | The entry, or None for an empty slot or an index past the table |
| `Handles.HandleTable.Remove` | src/object/handle.rs:657-678 | The slot is emptied, no other changes, and the reference is given up; the two refusals change nothing |
| `Handles.HandleTable.Duplicate` | src/object/handle.rs:681-717 | Reference taken, and in the first empty slot a handle with the fresh id, the same object and exactly the rights the mask leaves; every refusal and what it leaves behind |
| `Handles.Kernel.RefInc` | src/object/handle.rs:325-327 | One reference more |
| `Handles.Kernel.RefDec` | src/object/handle.rs:332-334 | One reference less, and whether it was the last |
| `Handles.Kernel.AllocHandleId` | src/object/handle.rs:202-206 | IDs never repeat |
| `Handles.MethodsAreSteps` | src/object/handle.rs:618-717 | The methods' effects on tables and reference counts are the steps the run theorems are about |
| `Files.RunAppend` | src/fs/vfs.rs:114-182 | Runs of requests compose |
| `Files.SeekBack` | src/fs/vfs.rs:149-182 | Seeking by nothing tells the offset; seeking to an offset told earlier undoes whatever happened since |
| `Files.ReadExact` | src/fs/vfs.rs:114-141 | How many bytes a read delivers, which, and where it leaves the cursor |
| `Files.SeekExact` | src/fs/vfs.rs:149-182 | Where each of the three seek modes goes, for every amount |
| `Files.ReadsConcatenate` | src/fs/vfs.rs:114-141 | Reads of any lengths deliver the file from the offset on without gap or repetition |
| `Files.ReadToEnd` | src/fs/vfs.rs:114-141 | Once a nonempty read comes back empty the whole file has been delivered |
| `Files.RamdiskFileOps.constructor` | src/fs/vfs.rs:98-104 | The cursor starts at 0 |
| `Files.RamdiskFileOps.Read` | src/fs/vfs.rs:114-141 | The next bytes of the file, and the offset behind them; the error without a ramdisk |
| `Files.RamdiskFileOps.Seek` | src/fs/vfs.rs:149-182 | Refused before the start, clamped to the size |
| `Files.FileDescriptorTable.constructor` | src/syscall/fd.rs:103-116 | Nothing open, next descriptor 3 |
| `Files.FileDescriptorTable.Init` | src/syscall/fd.rs:122-126 | The three standard descriptors |
| `Files.FileDescriptorTable.Alloc` | src/syscall/fd.rs:131-147 | Increasing descriptors, never an open one, none again after 255 |
| `Files.FileDescriptorTable.Close` | src/syscall/fd.rs:166-175 | Standard descriptors stay; any other slot is emptied |
| `Files.FileDescriptorTable.SysRead` | src/syscall/mod.rs:949-1070 | On a file the same step as the other cursor, with only this offset moved; the keyboard case; every error leaves the table alone |
| `Files.FileDescriptorTable.SysLseek` | src/syscall/mod.rs:1218-1324 | On a file the same step as the other cursor; every error leaves the table alone |
| `Files.OneOnBoth` | src/syscall/mod.rs:1029-1067 | One request gives both cursors the same reply and offset |
| `Files.RunOnBoth` | src/syscall/mod.rs:1029-1324 | So does every sequence of reads and seeks |
| `Madt.ParseMadt` | src/acpi/madt.rs:190-272 | Each array holds its type's entries in table order, as many as fit; no result exactly when an entry of length 0 stops the advance |
| `Madt.StuckExample` | src/acpi/madt.rs:229-269 | A table of 46 bytes the parser never gets through |
| `Madt.Arrays.constructor` | src/acpi/madt.rs:191-226 | Empty arrays of 256, 8 and 16 |
| `Madt.Arrays.Store` | src/acpi/madt.rs:238-266 | One entry is collected, or dropped when its array is full |
| `Madt.CollectIsCut` | src/acpi/madt.rs:238-266 | Collecting one by one is each type's subsequence cut at the array size |
| `Madt.ItemRoundTrip` | src/acpi/madt.rs:80-126 | One entry reads back as it was written, wherever it lies |
| `Madt.HeaderBytes` | src/acpi/madt.rs:190-236 | Where the length of the table lies and how much of each entry is read |
| `Madt.ItemBytes` | src/acpi/madt.rs:80-126 | Which bytes each field of an entry is made of |
| `Madt.TypesInOrder` | src/acpi/madt.rs:238-266 | Each list holds its type at ascending positions of the table, none left out |
| `Madt.ScanInverts` | src/acpi/madt.rs:229-269 | Entries laid out one after another are visited exactly, in order |
| `Madt.ParseInverts` | src/acpi/madt.rs:190-272 | Parsing inverts serialisation of a whole table |
| `Boot.Aligned` | src/init.rs:95-100 | The least multiple of the alignment at or above the offset |
| `Boot.StepKeepsOk` | src/init.rs:91-114 | Every step of any caller keeps the grants serial |
| `Boot.RunDisjoint` | src/init.rs:91-114 | In every interleaving the ranges are those of one sequential execution: aligned, in bounds, pairwise disjoint |
| `Boot.RunTells` | src/init.rs:91-114 | In every run a caller at rest with an address holds the base plus the offset of its latest grant |
| `Boot.TellsGrant` | src/init.rs:95-110 | A successful exchange tells base plus aligned offset and records that very grant |
| `Boot.StepCarries` | src/init.rs:91-114 | Size and alignment of a request never change between call and answer; refused exactly when it does not fit |
| `Boot.AnswersDisjoint` | src/init.rs:91-114 | Any two answers in any interleaving: the ranges told lie one behind the other, inside the buffer, aligned to its base |
| `Boot.RetryMeansProgress` | src/init.rs:108-113 | An exchange fails exactly when another caller advanced the offset since the load |
| `Boot.OffsetGrows` | src/init.rs:91-114 | The offset never goes back and no grant is withdrawn |
| `Boot.RefusedForGood` | src/init.rs:104-106 | A refused request does not fit at any later time either |
| `Tsc.TicksRoundTripIff` | src/arch/amd64/tsc.rs:140-171 | Ticks survive the detour over nanoseconds up to f/10^9 + 1 exactly when the nanoseconds fit 64 bits |
| `Tsc.WrapExample` | src/arch/amd64/tsc.rs:140-171 | At 500 MHz 2^63 ticks come back as none, at 2 GHz 2^63 nanoseconds are no ticks |
| `Tsc.NanosecondsRoundTripIff` | src/arch/amd64/tsc.rs:140-171 | Nanoseconds survive the detour over ticks up to 10^9/f + 1 exactly when the ticks fit 64 bits |
| `Tsc.Monotone` | src/arch/amd64/tsc.rs:140-171 | Both conversions are monotone while the result fits |
| `Tsc.ThereAndBack` | src/arch/amd64/tsc.rs:140-171 | Scaling and scaling back, both rounded down, never exceeds the start and falls short by a bounded amount |
| `Tsc.DetourIff` | src/arch/amd64/tsc.rs:140-171 | The loss is so bounded exactly when the value in between fits 64 bits |

## Left out

- Pmm.Manager.AddArena: the region's alignment and disjointness are assumed only for what is said about the view, because the source does not check them; `PmmRuns.BootArenas` discharges them for the boot layout. Whether the descriptor array could be allocated is a parameter; a boot allocator that returns null, which the source does not check, is not described.
- Pmm.Manager.AllocContiguous: no zone is claimed for runs of pages and the alignment argument is ignored, as in the source.
- VmoObject.Vmo.Clone: pages are visited in an arbitrary order; the source iterates over an ordered map.
- AddressSpaces.AddressSpace.MapPage: requires that no 1 GB page of the kernel covers the address, because the source would follow its frame as if it were a page directory, and that the first frame of a 2 MB page it writes into is modelled memory; addresses are below 2^48.
- AddressSpaces.AddressSpace.MapVmo: requires the kernel to have no page table on the mapped range, since otherwise kernel tables are overwritten (see MapPage).
- Elf.LoadElf: the file is shorter than 2^63 bytes, as every slice is; the debug prints are dropped, including the one that indexes the third segment unconditionally.
- Loader.LoadElfProcess: requires the kernel to have no page table where segments and stack go, since otherwise kernel tables are overwritten (see MapPage).
- SchedulerSpec.RunConserves: a corollary of SchedulerSpec.RunConservesIff for at most 64 threads per priority; both assume fresh thread ids, threads added as Ready, and a state to block in that is neither Ready nor Running.
- Schedulers.Scheduler.AddThreadTo: requires an id that is not in the table; ids come from a counter.
- RoundRobin.ProcessTable.Insert: the two panics are preconditions.
- HandleSpec.RunKeepsOk: assumes that whoever adds or closes a handle owns the reference it carries; the atomic counter's wrap-around is not modelled.
- Handles.HandleTable.Add: slots are locked one by one in the source; calls are taken as one step each.
- Files.FileDescriptorTable.SysRead: the keyboard's character is a parameter, blocking and user pointers are not modelled.
- Machine width: addresses, sizes and counters are unbounded integers except where 64-bit truncation is the point (the clock, the sums of the ELF loader); other additions that would overflow a machine word are not described.
- Heap deallocate: a merged predecessor is pushed onto the list a second time, so the list is not kept acyclic, and the address walk stops at the gaps that splitting leaves; only the allocation side is modelled.
- Context switching, timer ticks, priorities of wait queues, channels, events, timers, jobs and ports.
- The ramdisk's own layout and its build script, path lookup, open and close system calls.
- Interrupt controllers, descriptor tables, page-fault handling, boot entry, inline assembly, drivers, console, framebuffer, and the ARM64 and RISC-V placeholders: hardware or stubs.
- Userspace programs and the build scripts.
