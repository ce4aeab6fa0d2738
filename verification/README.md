# GOOS in Dafny

GOOS is a small i386 kernel. This project models the parts of it whose state must agree
with other state, and proves that it does:

* **Memory.** Bitmap pools hand out virtual ranges and physical frames; a two-level page
  table is edited through a self-map of the current directory; every process has its own
  directory with the kernel half shared; a size-class arena allocator stands on top.
* **Threads.** The scheduler and its time slices; semaphores and recursive locks as a
  step system in which the timer may come between any two statements that run with
  interrupts on.
* **Input and output.** The keyboard's scancode machine, the 64-byte ring it feeds, the
  one thread that reads it, and the `printf` formatter.

The model keeps two levels apart. The objects (`Bitmap`, `List`, `Machine`, `Allocator`,
`HeapMemory`, `Scheduler`, `Semaphore`, `Kernel`, `IoQueue`, `Keyboard`) are written as the C code is, with
loops, arrays, links and fields updated in place, and they stand on each other: the machine's
pools are `Bitmap` objects over bytes and its page tables words of physical memory, the
scheduler's and the semaphores' queues are `List` objects linked through tags inside the
thread structures. Each method is proved to do what a specification function on values does.
The theorems over runs are about those functions: an invariant that every step keeps, then
what it means for every reachable state.

| file | what it holds |
|---|---|
| Outcomes | results: a value, or the assertion that stopped the machine |
| Bitmaps, Lists | lib/kernel/bitmap.c and lib/kernel/list.c |
| Paging | entry words, the hardware walk (section 4.3 of the Intel SDM, volume 3A), the self-map |
| AddressSpaces | page pools, page allocation and release, processes, on values; the invariant |
| PageAllocation, PageRelease, PageRuns | malloc_page, mfree_page, pool setup, runs from boot |
| PageTables, Machine | the words that stand for a world; the code that edits them through the self-map |
| Arenas, Heaps, HeapRuns, Allocator | sys_malloc and sys_free: blocks, pages, runs of all heaps together, the code |
| HeapUse | how much of its pages sys_malloc uses, and in which order blocks are handed out |
| HeapWords, HeapMemory, HeapStores | headers, links and descriptors as words; the code on these words; client stores on the machine |
| Scheduling, Threads | scheduler steps and time slices; the scheduler on linked lists |
| Locks, LockRuns | locks and thread creation under preemption: steps, invariant, runs |
| LockHistories | what the past of a run says: the order of wakeups, calls made and returned |
| Searches | thread_start's search of the ready list: when it stays on the list, and a run in which it does not |
| Semaphores | semaphores on linked lists, and all of them together with the scheduler |
| IoQueues, Keyboards, KeyboardRuns | ring buffer, scancode machine, the pipeline with its consumer |
| Stdio | itoa and vsprintf |

## Choices

* A failed `ASSERT` halts: NDEBUG is not defined (makefile:11, kernel/debug.h:11-17). So
  every operation has the outcome `Panic`, with the assertion that failed. A full bitmap
  stops at lib/kernel/bitmap.c:27, so `palloc` never answers NULL, and the NULL paths at
  kernel/memory.c:201 and :256 are never taken. Compiled with NDEBUG they would leak pages
  or leave a lock held, and the accounting theorems would not hold.
* Sizes are those of the i386: `sizeof(struct arena)` is 12, words have 32 bits.
* Entries 0 and 768 of the kernel directory share one page table (boot/loader.S:183-184),
  so a kernel mapping in the first 4 MB of the kernel half also appears at the bottom of
  the kernel directory; `MapTranslates` and `LowAlias` say exactly where.
* The loader clears the directory and not the page tables; `LoaderLeft` asks only that the
  entries of the kernel heap are not present at boot, and leaves their other bits open.
* thread_start searches the ready list with interrupts on (thread/thread.c:72; kernel/main.c:26
  enables them before the threads are started). If the timer comes while the search stands on
  the tag of a thread and that thread blocks before the search goes on, the search stands on a
  tag that is not on the ready list any more. That is what the outcome `OffList` means, and
  where the step system stops; `SearchLost` is such a run from boot, and `SearchExact` says
  that there is no other way. What the code does next depends on the tag's links: those of a
  thread in a semaphore's list lead to that list's tail and to NULL (`LinksLeadAway`), unless a
  waiter is woken meanwhile; a thread that waits in an ioqueue's slot is on no list, and its
  tag keeps the link it had when the thread was dispatched, which can lead back to the ready
  list. process_execute does the same search with interrupts off (userprog/process.c:117),
  where none of this can happen (`InterruptsOffSafe`).
* Clients free only live pointers, write only inside what they own, release only locks
  they hold, and thread functions do not return.
* Where code and comments disagree the code is followed. The comment above
  create_page_dir (userprog/process.c:70) promises -1 on failure; it returns NULL. The
  comment at kernel/global.h:73 has a digit less than the macro below it. The comment
  above vsprintf (lib/stdio.c:28) promises the length of the result; it is the length up
  to the first NUL, `LengthReturned` says when the two
  differ and `LengthDiffers` gives an input.

## Model

| member | source | states |
|---|---|---|
| `Bitmaps.FirstFit` | lib/kernel/bitmap.c:21-58 | the reference: the least start of cnt clear bits, -1 exactly when there is no such run |
| `Bitmaps.FirstFitUnique` | lib/kernel/bitmap.c:21-58 | there is only one first fit, so the scan and the reference agree whenever both are one |
| `Bitmaps.ScanOne` | kernel/memory.c:143-144 | a scan for one bit in a bitmap that is not full never answers -1 |
| `Bitmaps.SetBit` | lib/kernel/bitmap.c:61-70 | setting or clearing a bit of a byte leaves the other seven |
| `Bitmaps.Bitmap.Init` | lib/kernel/bitmap.c:6-9 | every bit is clear afterwards |
| `Bitmaps.Bitmap.Test` | lib/kernel/bitmap.c:12-18 | the bit at the index, read through byte and mask |
| `Bitmaps.Bitmap.Set` | lib/kernel/bitmap.c:61-70 | the bits are the old ones with that one replaced |
| `Bitmaps.Bitmap.FirstClear` | lib/kernel/bitmap.c:22-36 | skipping full bytes and leading set bits finds the first clear bit; it stops exactly on a full bitmap |
| `Bitmaps.Bitmap.FirstInByte` | lib/kernel/bitmap.c:31-33 | the second loop ends inside the byte, at its first clear bit |
| `Bitmaps.Bitmap.Scan` | lib/kernel/bitmap.c:21-58 | for every bitmap: stops exactly when full; for a cnt of at least 1 exactly the first fit; for a cnt of 0 the place after the first set bit that follows a clear one, or -1 |
| `Lists.List.constructor` | lib/kernel/list.c:4-9 | the empty sequence between two sentinels |
| `Lists.List.InsertBefore` | lib/kernel/list.c:12-26 | the node goes in at that place; prev and next stay symmetric; only four links are written |
| `Lists.List.Push` | lib/kernel/list.c:29-31 | the node in front of the sequence |
| `Lists.List.Append` | lib/kernel/list.c:34-36 | the node behind the sequence |
| `Lists.List.Remove` | lib/kernel/list.c:39-48 | the sequence without the node, whose own links stay; no other node changes |
| `Lists.List.Pop` | lib/kernel/list.c:51-55 | the first node comes off |
| `Lists.List.Find` | lib/kernel/list.c:58-68 | ends, and answers membership |
| `Lists.List.Len` | lib/kernel/list.c:84-92 | ends, and answers the length |
| `Lists.List.Empty` | lib/kernel/list.c:95-97 | whether the sequence is empty |
| `Paging.PdePtrIsPtePtrTwice` | kernel/memory.c:129-138 | pde_ptr(v) is pte_ptr(pte_ptr(v)) for every address |
| `Paging.WalkPtePtr` | kernel/memory.c:129-132 | the hardware walk of pte_ptr(v) lands on v's own entry word, and faults exactly when v has no page table |
| `Paging.WalkPdePtr` | kernel/memory.c:135-138 | the walk of pde_ptr(v) lands on v's own directory entry, always |
| `Paging.MapTranslates` | kernel/memory.c:152-179 | after the mapping v translates to the frame, and every other address as before, except one that shares v's entry |
| `Paging.MapWritesOnly` | kernel/memory.c:158-178 | the words written are the entry, the directory entry of a fresh table, and that table, which is otherwise zero |
| `Paging.MapThenPresent` | kernel/memory.c:158-167 | after a mapping the entry is present, so mapping again would fail the assertion |
| `AddressSpaces.Palloc` | kernel/memory.c:141-149 | the frame given is the first free one of the pool; it stops exactly on a full pool, and never answers NULL |
| `PageAllocation.MallocPageCorrect` | kernel/memory.c:97-206 | malloc_page keeps the invariant; NULL changes nothing and means no run fits; otherwise the first fit is mapped to distinct fresh frames and nothing else changes |
| `PageAllocation.MallocPagePanics` | kernel/memory.c:97-206 | it stops if and only if the count is bad, the virtual bitmap is full, the run reaches the stack page, or free frames for pages and missing tables are too few |
| `PageAllocation.AddPagesExact` | kernel/memory.c:197-204 | the loop succeeds exactly when the pools hold enough frames |
| `PageRelease.PfreePool` | kernel/memory.c:397-410 | pfree picks the pool and the bit that palloc used |
| `PageRelease.MfreePageCorrect` | kernel/memory.c:421-460 | mfree_page keeps the invariant, frees exactly the frames of the range and clears exactly its bits |
| `PageRelease.MallocThenFree` | kernel/memory.c:182-206 | freeing what malloc_page gave restores both bitmaps and all mappings, keeping only page tables made on the way |
| `PageRuns.MemPoolInitLayout` | kernel/memory.c:10-83 | the pools are disjoint and inside memory and the three bitmaps end before the main PCB if and only if the memory is at least 2 MB and below 2 MB and 87392 pages |
| `PageRuns.PoolsShareMemory` | kernel/memory.c:22-45 | the two pools share the free memory evenly, and each leaves out fewer than eight pages |
| `PageRuns.BootInv` | kernel/memory.c:10-83 | the pools after boot satisfy the invariant |
| `PageRuns.GetAPageCorrect` | kernel/memory.c:231-263 | one free page is mapped to a fresh frame, nothing else changes |
| `PageRuns.GetAPageTwice` | kernel/memory.c:158-167 | asking for a page stops on the present entry exactly when the page is mapped and a frame was free; with a full pool it stops before |
| `PageRuns.IndexNeverNegative` | kernel/memory.c:241-248 | for every 32-bit address the index that get_a_page computes passes its assertion, because the difference wraps; it is an index of the bitmap if and only if the page is one of the pool |
| `PageRuns.ProcessExecuteCorrect` | userprog/process.c:102-125 | one new process with an empty space and a directory of its own; no other process and no user frame changes |
| `PageRuns.UserBitmapCovers` | userprog/process.c:94-97 | the bitmap has a bit for each page from USER_VADDR_START up to the kernel's half, the stack page last |
| `PageRuns.ProcessExecuteTakes` | userprog/process.c:93-113 | it takes one page for the PCB, the least run of pages that holds a bit for every user page, and one page for the directory, all different and new; no other kernel page is taken |
| `PageRuns.RunInv` | kernel/memory.c:97-460 | every state of every run of allocations, releases and process creations satisfies the invariant |
| `PageRuns.NoPteRepeat` | kernel/memory.c:158-167 | no run from boot stops on a present page table entry |
| `PageRuns.FramesAccounted` | kernel/memory.c:141-149 | after any run a frame's bit is set exactly when the frame backs one mapping or one page table, and then only one |
| `PageRuns.UserFramesSeparate` | kernel/memory.c:195-204 | after any run no frame of a user page backs another page, a page table or a kernel page |
| `PageRuns.BitsMatchMappings` | kernel/memory.c:97-126 | after any run a virtual bit is set exactly when its page is mapped |
| `PageTables.BootStands` | boot/loader.S:176-211 | any words with the loader's directory, its low mapping and no present heap entry stand for the boot state |
| `PageTables.TranslateUser` | kernel/memory.c:152-179 | the walk of a process's directory translates user addresses exactly as its space says |
| `PageTables.TranslateKernel` | userprog/process.c:79-83 | the walk of any directory translates kernel heap addresses as the kernel's space says |
| `PageTables.DirectoriesAgree` | userprog/process.c:79-89 | every process directory agrees with the kernel's on entries 768 to 1022 and its entry 1023 points at itself |
| `PageTables.KernelHalfSame` | userprog/process.c:79-83 | an address of the kernel half means the same in every process, whenever it was mapped |
| `PageTables.UserWalksApart` | kernel/memory.c:195-204 | two user addresses on different pages or in different processes never reach one frame, nor a kernel page's, nor a page table |
| `PageTables.UserMayWrite` | kernel/memory.c:158-178 | both entries on the way to a page of a process are present, writable and open to user mode |
| `PageTables.LowAlias` | boot/loader.S:183-184 | the shared table of entries 0 and 768 shows at the bottom of the kernel directory |
| `PageTables.MapKernelPage` | kernel/memory.c:158-163 | mapping a kernel page finds its table and a clear entry, and the words then stand for the grown kernel space in every directory |
| `PageTables.MapUserPage` | kernel/memory.c:158-178 | the same for a user page, with or without a fresh table |
| `PageTables.DataWrite` | kernel/memory.c:212-214 | writes to any frame that is no table and no directory leave every translation alone |
| `PageTables.NewProcess` | userprog/process.c:71-90 | a cleared directory with the kernel half copied and the last entry set makes a process with an empty space |
| `Machine.Machine.constructor` | boot/loader.S:176-211 | the machine after the loader and mem_pool_init is valid, on the kernel directory, with all bitmaps clear and no memory but its own |
| `Machine.Machine.SetFrameBit` | kernel/memory.c:141-149 | a bit of one frame bitmap changes, and both bitmaps still hold what the pools say |
| `Machine.Machine.ScanVirtual` | kernel/memory.c:97-126 | the scan of the running context's virtual bitmap is its first fit |
| `Machine.Machine.SetVirtualBits` | kernel/memory.c:105-108 | the loop of bitmap_set changes exactly the range in one bitmap, and no process's bitmap but the caller's |
| `Machine.Machine.LoadPde` | kernel/memory.c:135-138 | reading through pde_ptr gives the directory entry |
| `Machine.Machine.StorePde` | kernel/memory.c:172 | writing through pde_ptr changes that word only |
| `Machine.Machine.LoadPte` | kernel/memory.c:129-132 | reading through pte_ptr gives the page's entry and does not fault |
| `Machine.Machine.StorePte` | kernel/memory.c:163 | writing through pte_ptr changes that word only |
| `Machine.Machine.ClearTable` | kernel/memory.c:174 | the memset behind pte_ptr clears exactly the page table |
| `Machine.Machine.AddrV2P` | kernel/memory.c:266-270 | the frame and offset that the entry gives |
| `Machine.Machine.Palloc` | kernel/memory.c:141-149 | scanning the bytes and setting the bit takes the first free frame of the pool, and no other bitmap changes |
| `Machine.Machine.PageTableMap` | kernel/memory.c:152-179 | stops on a present entry, otherwise leaves exactly the mapped words, with a fresh table when there was none |
| `Machine.Machine.AddOnePage` | kernel/memory.c:199-204 | one turn of the loop, on words and bitmaps, is the step on values |
| `Machine.Machine.SetVirtual` | kernel/memory.c:105-108 | with the range set or cleared the machine stands for the world with that range of virtual bits |
| `Machine.Machine.GetVirtualAddr` | kernel/memory.c:97-126 | the first fit is reserved; NULL when there is none; a kernel thread asking for user pages stops |
| `Machine.Machine.MallocPage` | kernel/memory.c:182-206 | on words and bitmaps it is malloc_page on values, and the machine stays valid |
| `Machine.Machine.GetAPage` | kernel/memory.c:231-263 | the page of the running context, or a stop in the wrong context or on a mapped page |
| `Machine.Machine.Pfree` | kernel/memory.c:397-410 | the comparison with the first user frame picks the bitmap; its one bit is clear, every other bitmap holds what it held |
| `Machine.Machine.PteRemove` | kernel/memory.c:413-419 | the entry loses its present bit, nothing else changes |
| `Machine.Machine.MfreePage` | kernel/memory.c:422-460 | stops exactly on a bad count or alignment; otherwise it is mfree_page on values and the machine stays valid |
| `Machine.Machine.GetKernelPages` | kernel/memory.c:209-217 | the pages of malloc_page, every word of them cleared, and the machine stays valid |
| `Machine.Machine.CopyKernelHalf` | userprog/process.c:83 | the copy of the upper 256 entries, read through the self-map |
| `Machine.Machine.CreatePageDir` | userprog/process.c:71-90 | a directory with an empty lower half, the kernel half and its own self-map |
| `Machine.Machine.FillDirectory` | userprog/process.c:79-89 | a cleared page becomes a directory with the kernel half and its own self-map, and every translation stays |
| `Machine.Machine.ProcessExecute` | userprog/process.c:93-125 | the memory side of process_execute is the step on values, and the bytes of the new bitmap lie in a run of pages taken for it |
| `Machine.Machine.AddUserMap` | userprog/process.c:93-99 | the new process has a clear bitmap of its own, shared with nobody |
| `Machine.Machine.PageDirActivate` | userprog/process.c:48-57 | cr3 becomes the directory of the next thread, found through the current one |
| `Arenas.Block2ArenaUndoes` | kernel/memory.c:285-292 | block2arena undoes arena2block for every arena and index, and a block stays inside its page behind the header |
| `Arenas.BlocksApart` | kernel/memory.c:285-287 | blocks of one arena do not overlap |
| `Arenas.DescFor` | kernel/memory.c:352-354 | the smallest class that fits |
| `Arenas.SizesDouble` | kernel/memory.c:273-282 | the classes are 16 bytes and each twice the one before, up to 1024 |
| `Arenas.NewArenaFills` | kernel/memory.c:275-280 | a new arena lists as many blocks as fit behind its header: one more would not |
| `Arenas.AddArenaInv` | kernel/memory.c:356-384 | a new arena puts all its blocks on the empty list of its class |
| `Arenas.TakeInv` | kernel/memory.c:387-392 | the first free block becomes live, its arena counts one less, and no arena is all free |
| `Arenas.GiveInv` | kernel/memory.c:492-493 | a freed block is on the list and not live, its arena counts one more |
| `Arenas.DropInv` | kernel/memory.c:497-505 | an arena that is all free is taken apart and leaves nothing on the list |
| `Arenas.AddLargeInv` | kernel/memory.c:326-343 | a large allocation is one arena with its pointer behind the header |
| `Arenas.DropLargeInv` | kernel/memory.c:487-489 | freeing it removes that arena only |
| `Arenas.LiveApart` | kernel/memory.c:295-394 | two live pointers share no byte of their blocks |
| `Arenas.LiveApartFromHeaders` | kernel/memory.c:285-287 | no live byte lies in an arena header |
| `Arenas.LiveApartFromFree` | kernel/memory.c:387-392 | no live byte lies in a free block |
| `Arenas.SomethingLive` | kernel/memory.c:497-505 | every arena at rest has a live block in it |
| `Arenas.NothingLive` | kernel/memory.c:497-505 | with nothing live there is no arena and every free list is empty |
| `Heaps.SysMallocSound` | kernel/memory.c:295-394 | sys_malloc keeps heap and pages in agreement; the new pointer was not live and has room; NULL changes nothing and says why |
| `Heaps.SysMallocExact` | kernel/memory.c:295-394 | sys_malloc stops if and only if the request fits the pool, new pages are needed and malloc_page stops; it answers NULL if and only if the request exceeds the pool or no run of pages is long enough for a large one |
| `Heaps.SysFreeSound` | kernel/memory.c:463-509 | sys_free of a live pointer fails no assertion, and exactly that pointer is no longer live |
| `Heaps.MallocAccounts` | kernel/memory.c:295-394 | the space gains exactly the heap's pages |
| `Heaps.FreeAccounts` | kernel/memory.c:463-509 | and loses exactly those given back |
| `Heaps.Reclaimed` | kernel/memory.c:463-509 | a sound heap with nothing live has given back every page and frame; a process keeps only new page tables, and exactly their frames |
| `HeapRuns.RunSound` | kernel/memory.c:182-509 | in every state of every run of sys_malloc, sys_free, process_execute, get_a_page and page requests, by the kernel and any processes, every heap is sound and its pages are apart from all others |
| `HeapRuns.LiveSafe` | kernel/memory.c:295-394 | after any run every live allocation of every heap is as long as asked for, on mapped pages, and apart from all others, all headers and all free blocks of its heap |
| `HeapRuns.HeapsApart` | kernel/memory.c:295-394 | after any run live blocks of different heaps lie in different frames |
| `HeapRuns.FreeNeverStops` | kernel/memory.c:463-509 | after any run a live pointer of any heap can be freed, whatever the others hold |
| `HeapRuns.CountsExact` | kernel/memory.c:487-506 | after any run, in every heap, a small arena's cnt is the number of its blocks on the free list and below blocks_per_arena |
| `HeapRuns.RunReclaims` | kernel/memory.c:442-509 | after any run a heap with nothing live has empty free lists, and its space and virtual bitmap hold exactly the pages taken without it |
| `HeapRuns.AllReclaimed` | kernel/memory.c:463-509 | when nothing at all is live, the kernel frames in use are exactly those of pages taken without the heap (thread structures, bitmaps, directories) and of page tables, and the user frames exactly those of stack and other such pages |
| `HeapRuns.StretchReclaims` | kernel/memory.c:463-509 | in any run, a stretch that uses one heap, from nothing live to nothing live, leaves the whole state as it was, but for a process's new page tables and exactly their frames |
| `HeapRuns.ExecStep` | userprog/process.c:93-125 | process_execute leaves every other heap sound and gives the new process an empty one |
| `HeapRuns.StackNeverHit` | kernel/memory.c:123 | with the stack page mapped, malloc_page of that process never stops on it |
| `HeapRuns.NoStackOverlap` | userprog/process.c:40 | in any run, once start_process has placed the stack, no sys_malloc of that process stops on it |
| `HeapUse.ClassTight` | kernel/memory.c:352-354 | the class of a request is the one that is large enough and less than twice the larger of the request and 16 |
| `HeapUse.MallocTight` | kernel/memory.c:295-394 | up to 1024 bytes a client gets less than twice the larger of the request and 16; above that whole pages, one less of which is not enough |
| `HeapUse.TooLarge` | kernel/memory.c:302-318 | a request for more than the caller's own pool changes nothing |
| `HeapUse.PageOnlyWhenFull` | kernel/memory.c:356-358 | a request of up to 1024 bytes takes a page only when every place for a block of its class, in every arena of the class, is held |
| `HeapUse.RunPageOnlyWhenFull` | kernel/memory.c:356-358 | the same after any run, in every heap |
| `HeapUse.TakenInOrder` | kernel/memory.c:377-392 | blocks come from the front of the list, and those of a new page in the order of their addresses |
| `HeapUse.FreedGoesLast` | kernel/memory.c:491-505 | a freed block goes behind all others of its class; taking an arena apart keeps the order of the rest |
| `Allocator.Allocator.constructor` | kernel/memory.c:273-282 | after boot the machine and the empty kernel heap are the first state of every run |
| `Allocator.Allocator.FindDesc` | kernel/memory.c:352-354 | the loop finds the smallest class that fits |
| `Allocator.Allocator.FillArena` | kernel/memory.c:377-381 | the loop lists all blocks of a new arena in order, and its assertion holds |
| `Allocator.Allocator.SysMalloc` | kernel/memory.c:295-394 | whoever runs, the code is one step of the whole memory system: the result is that of the step, and every heap, the others too, is as the step says |
| `Allocator.Allocator.EmptyArena` | kernel/memory.c:498-503 | the loop removes exactly the arena's blocks, and stops exactly when one is missing |
| `Allocator.Allocator.SysFree` | kernel/memory.c:463-509 | NULL stops the machine; a live pointer is freed, and every heap is as the step says |
| `Allocator.Allocator.Execute` | userprog/process.c:93-125 | process_execute with block_desc_init: a new empty heap, all others as they were |
| `Allocator.Allocator.Switch` | userprog/process.c:48-57 | after a switch of threads the next one's heap is used and all heaps still agree with the machine |
| `Allocator.Allocator.PlacePage` | kernel/memory.c:231-263 | get_a_page is a step of the whole system; a page already mapped stops it |
| `Allocator.Allocator.TakeKernelPages` | kernel/memory.c:209-217 | get_kernel_pages is a step of the whole system, whoever runs |
| `Allocator.Allocator.StartProcess` | userprog/process.c:16-126 | process_execute, the switch to the new process and the placing of its stack are two steps of the whole system |
| `Allocator.FirstProcess` | kernel/main.c:20-40 | from boot to the first sys_malloc of a process, what the code does is a run, and what it returns is live at its end |
| `HeapWords.InsertLinked` | lib/kernel/list.c:12-26 | the four writes of list_insert_before put the node at its place in a chain of words |
| `HeapWords.UnlinkLinked` | lib/kernel/list.c:39-48 | the two writes of list_remove take the node out of the chain |
| `HeapWords.HeaderFilled` | kernel/memory.h:51-58 | the three words of an arena's header fill it |
| `HeapWords.SoundLaid` | kernel/memory.c:285-292 | headers, free blocks and descriptors of a sound heap are words of their own: no two overlap |
| `HeapWords.AppendStands` | kernel/memory.c:377-381 | list_append on words leaves all headers, descriptors and other lists as they were and the block last on its list |
| `HeapWords.UnlinkStands` | kernel/memory.c:387 | list_remove on words likewise |
| `HeapWords.ClientStore` | kernel/memory.c:285-287 | whatever a client writes inside a block it holds, headers, links and descriptors still say the same |
| `HeapWords.StandsUnique` | kernel/memory.c:285-292 | words stand for one heap only: counts, classes and lists can be read off them |
| `HeapMemory.HeapMemory.Init` | kernel/memory.c:273-282 | the loop of block_desc_init leaves words that stand for the empty heap |
| `HeapMemory.HeapMemory.Find` | lib/kernel/list.c:58-68 | following the links ends, and answers membership |
| `HeapMemory.HeapMemory.FillPage` | kernel/memory.c:363-384 | memset, header and the loop of appends leave words that stand for the heap with the new arena; the assertion in the loop holds |
| `HeapMemory.HeapMemory.Take` | kernel/memory.c:387-392 | the block popped through the links is the first of the list, and the words stand for the heap without it |
| `HeapMemory.HeapMemory.FillLarge` | kernel/memory.c:331-343 | memset and header leave words that stand for the heap with the large arena |
| `HeapMemory.HeapMemory.Give` | kernel/memory.c:491-497 | the list found through the header gets the block, and the comparison of the two counts tells whether the arena is all free |
| `HeapMemory.HeapMemory.Dismantle` | kernel/memory.c:498-503 | each block is found on the links and removed, so the assertion holds, and the words stand for the heap without the arena |
| `HeapMemory.HeapMemory.SysMalloc` | kernel/memory.c:295-394 | on words the result is that of sys_malloc on values, and the words stand for its heap |
| `HeapMemory.HeapMemory.SysFree` | kernel/memory.c:463-509 | the header read from memory tells large from small; what is released and the words afterwards are those of sys_free on values |
| `HeapMemory.HeapMemory.Store` | kernel/memory.c:285-287 | a client's store in its block leaves the words standing |
| `HeapStores.OnlyFrame` | kernel/memory.c:195-204 | the frame of a page shows in no other place of any address space, but for kernel pages, which show in all |
| `HeapStores.StoreShown` | kernel/memory.c:195-204 | a store to a page is a store of that word in each space that shows the page and of none in the others |
| `HeapStores.ClientWrites` | kernel/memory.c:152-179 | a client's store in its block, through the current directory, reaches the block; page tables, headers, links and descriptors in memory stand as before |
| `HeapStores.OthersUntouched` | kernel/memory.c:195-204 | it leaves the headers, links and descriptors of every other heap as they were |
| `HeapStores.RunStore` | kernel/memory.c:295-509 | the same in every state of every run |
| `Scheduling.ScheduleInv` | thread/thread.c:108-133 | preemption always finds a thread; one thread runs and the ready list holds each ready thread once |
| `Scheduling.BlockInv` | thread/thread.c:146-158 | blocking keeps that, and stops exactly when nobody is ready |
| `Scheduling.UnblockInv` | thread/thread.c:161-178 | unblocking a blocked thread fails no assertion and keeps it |
| `Scheduling.StartInv` | userprog/process.c:117-123 | putting a new thread on both lists fails no assertion and keeps it |
| `Scheduling.TickInv` | device/timer.c:36-53 | a timer interrupt keeps it |
| `Scheduling.SliceLasts` | device/timer.c:48-52 | a thread runs on for as many ticks as its slice has |
| `Scheduling.SliceEnds` | device/timer.c:48-52 | on the next tick the head of the ready list runs and the thread is last |
| `Scheduling.DispatchedExactly` | device/timer.c:36-53 | in a run of ticks the k-th ready thread runs after exactly the rest of the current slice and the slices ahead, and not before |
| `Scheduling.WholeSlice` | device/timer.c:48-52 | the k-th ready thread, once dispatched, runs for its slice and one tick, and then another thread does |
| `Scheduling.SliceRefilled` | thread/thread.c:112-117 | a thread preempted at the end of its slice waits for all others and then runs for its priority plus one ticks |
| `Scheduling.SliceAlone` | thread/thread.c:112-117 | with nobody else ready it goes on with a new slice |
| `Scheduling.StartedLast` | thread/thread.c:64-82 | a new thread is last on both lists and its first slice is its priority |
| `Scheduling.TickCounted` | device/timer.c:42-46 | a tick counts once, on the clock and for the running thread |
| `Scheduling.PositionStep` | thread/thread.c:112-127 | a dispatch moves a waiting thread up by one, an unblocking down by one, nothing else moves it |
| `Scheduling.PositionLaw` | thread/thread.c:174 | in any run, place plus dispatches is first place plus unblockings |
| `Threads.Scheduler.constructor` | thread/thread.c:136-143 | two empty lists with sentinels of their own and the main thread's two tags, on neither |
| `Threads.Scheduler.MakeMain` | thread/thread.c:93-105 | the main thread's tag goes on the list of all threads, its assertion holds, and the scheduler's invariant with it |
| `Threads.Scheduler.AppendReady` | thread/thread.c:114-115 | the search on the links finds the tag exactly when the thread is queued, and then the machine stops; otherwise the tag is linked in last |
| `Threads.Scheduler.PushReady` | thread/thread.c:168-174 | the same in front |
| `Threads.Scheduler.PopReady` | thread/thread.c:123-126 | the tag that comes off is that of the first thread, whose structure is found from it |
| `Threads.Scheduler.Schedule` | thread/thread.c:108-133 | appending, popping and switching on the links is the step on sequences; only the tags of the ready list and the running thread are written |
| `Threads.Scheduler.Block` | thread/thread.c:146-158 | on the links it is the step on sequences; the blocked thread's tag is left unlinked |
| `Threads.Scheduler.Unblock` | thread/thread.c:161-178 | on the links it is the step on sequences, and stops exactly when the step does |
| `Threads.Scheduler.TimerHandler` | device/timer.c:36-53 | on the links it is the step on sequences, with or without a switch |
| `Threads.Scheduler.Enlist` | userprog/process.c:117-123 | a new structure with two tags of its own is last on both lists, and neither assertion fails |
| `Semaphores.Semaphore.constructor` | thread/sync.c:7-12 | the value, and an empty list with sentinels of its own |
| `Semaphores.Semaphore.Down` | thread/sync.c:22-41 | one turn of the loop or its end, on the links of the waiters and the ready list, is the step on sequences |
| `Semaphores.Semaphore.Up` | thread/sync.c:44-59 | moving the first waiter's tag from the waiters to the front of the ready list is the step on sequences |
| `Semaphores.Kernel.constructor` | thread/sync.c:7-19 | the scheduler after boot and free semaphores with lists of their own satisfy the invariant |
| `Semaphores.Kernel.Down` | thread/sync.c:22-41 | in any state that satisfies the invariant of all runs, sema_down on the links keeps every list of the kernel equal to its sequence, those of the other semaphores too; it stops only when nobody is ready |
| `Semaphores.Kernel.Up` | thread/sync.c:44-59 | the same for sema_up, which never stops |
| `Semaphores.Kernel.Timer` | device/timer.c:36-53 | the same for the timer interrupt, which never stops |
| `Semaphores.Kernel.Execute` | userprog/process.c:117-123 | the same for the end of process_execute, which never stops |
| `Semaphores.Kernel.TagOnOneList` | thread/thread.c:108-178 | a general_tag is linked into the ready list exactly when its thread is ready and into a semaphore's list exactly when it is blocked there, and no two lists share a node |
| `Semaphores.Kernel.LinksLeadAway` | lib/kernel/list.c:58-68 | from the tag of a thread that waits for a lock the links lead to the tail of the lock's list and to NULL, and meet no node of the ready list |
| `Locks.NextMoveGood` | thread/sync.c:62-89 | from any place whose fields fit, the next statement fails no assertion and leaves fields that fit |
| `Locks.ThroughOnce` | thread/sync.c:62-89 | the statements in a row take a free lock to held once, and a lock held once to free |
| `Locks.StatementInv` | thread/sync.c:62-89 | each statement of lock_acquire and lock_release keeps the invariant |
| `Locks.SemaDownInv` | thread/sync.c:22-41 | sema_down takes the semaphore or queues the thread, and stops only when nobody is left to run |
| `Locks.SemaUpInv` | thread/sync.c:44-59 | sema_up fails no assertion and wakes the head of the queue |
| `Locks.SlotFree` | device/ioqueue.c:32-36 | whoever holds a queue's lock finds its waiter slot free |
| `Locks.UnparkInv` | device/ioqueue.c:32-36 | a thread resumed in ioq_wait goes on with the invariant kept |
| `Locks.SpawnInv` | thread/thread.c:72-74 | thread_start's first append, after a search that stayed on the list, keeps the invariant |
| `Locks.RegisterInv` | thread/thread.c:77-79 | its second append finds the tag absent and keeps the invariant |
| `LockRuns.SeekStep` | thread/thread.c:72 | one turn of the preemptible search of the ready list keeps the invariant, and finds itself off the list exactly when the thread whose tag it stands on has blocked |
| `LockRuns.SeekAllStep` | thread/thread.c:77 | one turn of the search of the list of all threads never leaves it |
| `LockRuns.ExecuteStep` | userprog/process.c:117-123 | with interrupts off both searches and both appends succeed |
| `LockRuns.DoInv` | thread/sync.c:22-89 | every step, by whatever thread, keeps the invariant, and can stop only because nobody is ready or because a thread_start's search stands on the tag of a blocked thread |
| `LockRuns.BootInv` | thread/sync.c:7-19 | the initial state satisfies it |
| `LockRuns.RunInv` | thread/sync.c:22-89 | every state of every interleaving satisfies it |
| `LockRuns.AssertionsHold` | thread/sync.c:22-89 | after any run no assertion can fail next but that some thread is ready, and a stop of another kind means that a search of thread_start is on the tag of a blocked thread |
| `LockRuns.MutualExclusion` | thread/sync.c:22-89 | in every reachable state the value plus the number of threads past sema_down and not through sema_up is 1 |
| `LockRuns.RepeatIsDepth` | thread/sync.c:62-89 | at rest a thread is the holder exactly when it is nested, and holder_repeat_cnt is its depth |
| `LockRuns.WakeupsKept` | thread/sync.c:22-59 | a free semaphore with a queue has a woken thread, ready or running, that has yet to look at the value again |
| `LockRuns.TagOnOneList` | thread/thread.c:108-178 | in every reachable state exactly one thread runs, every other tag is on exactly one of the ready list, one semaphore queue or one slot |
| `LockHistories.QueueStep` | thread/sync.c:22-59 | in each step the queue and who falls asleep are who is woken and the queue after it |
| `LockHistories.FirstComeFirstServed` | thread/sync.c:22-59 | in any run threads are woken from a semaphore in the order in which they blocked on it |
| `LockHistories.DepthCounts` | thread/sync.c:62-89 | in any run the depth of a thread at a lock is its lock_acquire calls that have returned less its lock_release calls that have |
| `LockHistories.HolderCounts` | thread/sync.c:62-89 | at rest the holder is the thread with calls not yet matched, and holder_repeat_cnt is their number |
| `Searches.SearchExact` | thread/thread.c:72 | after any run, thread_start's search stands on a tag that is not on the ready list if and only if the thread of that tag is blocked |
| `Searches.UninterruptedSearch` | thread/thread.c:72-74 | a search that nothing interrupts passes every tag once and ends in the append |
| `Searches.InterruptsOffSafe` | userprog/process.c:117-123 | in every run whose threads are created with interrupts off only an empty ready list can stop the machine |
| `Searches.SearchLost` | thread/thread.c:72 | a run from boot, with the priorities the kernel uses, in which the search stands on a tag that a semaphore's list has taken over |
| `IoQueues.TestsExact` | device/ioqueue.c:15-29 | empty means no byte, full means 63, and there are never more |
| `IoQueues.PutAppends` | device/ioqueue.c:84-85 | a byte put is last |
| `IoQueues.TakePops` | device/ioqueue.c:59-60 | a byte taken was first |
| `IoQueues.FifoOrder` | device/ioqueue.c:46-91 | for any interleaving of any callers, what was there and put is what was taken and is left, in order |
| `IoQueues.IoQueue.constructor` | device/ioqueue.c:6-12 | empty, nobody waiting |
| `IoQueues.IoQueue.IsFull` | device/ioqueue.c:20-23 | 63 bytes are queued |
| `IoQueues.IoQueue.IsEmpty` | device/ioqueue.c:26-29 | no byte is queued |
| `IoQueues.IoQueue.PutChar` | device/ioqueue.c:83-90 | the byte is appended and the waiting consumer woken |
| `IoQueues.IoQueue.GetChar` | device/ioqueue.c:58-67 | the first byte is returned and a waiting producer woken |
| `Keyboards.KeymapCase` | device/keyboard.h:43-104 | on every key that is not classed as having two characters the second is the capital of the first or the same |
| `Keyboards.KeymapZeros` | device/keyboard.h:43-104 | the keys without a character are exactly the control keys |
| `Keyboards.FlagsExact` | device/keyboard.c:8-92 | for every byte stream: ext says whether the last byte was 0xe0, shift whether the last shift event was a press, ctrl and alt likewise for either key, caps is the parity of its presses |
| `Keyboards.CharExact` | device/keyboard.c:48-77 | the character of each byte is the one its history calls for |
| `Keyboards.LettersExact` | device/keyboard.c:54-70 | for every byte stream a letter key gives the capital exactly when shift is down or caps lock is on, but not both |
| `Keyboards.SymbolsExact` | device/keyboard.c:54-70 | every other key with two different characters gives the second exactly when shift is down |
| `Keyboards.SingleExact` | device/keyboard.c:67-77 | a key with one character gives it, whatever is held |
| `Keyboards.SilentExact` | device/keyboard.c:17-49 | break codes, prefixes, prefixed keys and keys past the table give nothing |
| `Keyboards.DigitRow` | device/keyboard.h:46-57 | what the row of the digits spells, alone and with shift |
| `Keyboards.TopRow` | device/keyboard.h:60-71 | the row from q to p |
| `Keyboards.HomeRow` | device/keyboard.h:74-85 | the row from a to l |
| `Keyboards.BottomRow` | device/keyboard.h:87-97 | the row from z to m |
| `Keyboards.SingleKeys` | device/keyboard.h:45-103 | escape, backspace, tab, enter, star and space |
| `Keyboards.PrefixConsumed` | device/keyboard.c:17-27 | a prefix is used up by the next byte that is not one |
| `Keyboards.Keyboard.Handler` | device/keyboard.c:8-92 | the code computes the new flags and queues the character unless 63 are queued |
| `Keyboards.Keyboard.Press` | device/keyboard.c:48-92 | the make-code half of it |
| `Keyboards.Keyboard.Release` | device/keyboard.c:33-46 | a break code clears the flag of its key, whichever side it is on, and no other flag |
| `KeyboardRuns.DoInv` | device/ioqueue.c:32-91 | every step of the pipeline keeps its invariant and stops only when nobody is ready |
| `KeyboardRuns.RunInv` | device/ioqueue.c:32-91 | every state of every run satisfies it |
| `KeyboardRuns.StreamExact` | device/keyboard.c:72-76 | in every run what was decoded and did not find the queue full is what the consumer got followed by what is queued |
| `KeyboardRuns.DroppedOnlyWhenFull` | device/keyboard.c:72-76 | a decoded character is dropped exactly when 63 are queued |
| `KeyboardRuns.NoWakeupLost` | device/ioqueue.c:32-68 | a non-empty slot means a blocked consumer and an empty queue; a waiting consumer with bytes queued is ready or running |
| `KeyboardRuns.WokenReturns` | device/ioqueue.c:46-68 | a woken consumer returns the oldest byte at once: it never waits twice |
| `KeyboardRuns.AssertionsHold` | device/ioqueue.c:32-91 | after any run the only assertion that can fail next is that some thread is ready |
| `KeyboardRuns.DeliveredNext` | device/ioqueue.c:87-90 | a key gives a waiting consumer the CPU when the running slice is over, and not before |
| `Stdio.DigitsParse` | lib/stdio.c:10-26 | the digits parse back to the value in every base from 2 to 36, and only zero starts with a zero |
| `Stdio.DigitsUnique` | lib/stdio.c:10-26 | they are the only numeral of the value without a leading zero |
| `Stdio.DigitsLength` | lib/stdio.c:10-26 | their number is exactly the length of the value in the base |
| `Stdio.WordDigits` | lib/stdio.c:10-26 | at most 10 decimal and 8 hexadecimal digits for a word |
| `Stdio.DecimalParses` | lib/stdio.c:63-71 | %d prints the signed value, also the least one, in at most 11 characters |
| `Stdio.SignedIs` | lib/stdio.c:63-66 | the signed value of a word is its two's complement |
| `Stdio.HexPrinted` | lib/stdio.c:47-50 | %x prints a word's value in base 16 in capitals, with no leading zero |
| `Stdio.DecimalPrinted` | lib/stdio.c:63-71 | %d prints the signed value in base 10, with a sign exactly for a negative one and no leading zero |
| `Stdio.TextPrinted` | lib/stdio.c:52-61 | %s prints the string and stops the machine on NULL; %c prints the low byte |
| `Stdio.PlainPrinted` | lib/stdio.c:37-43 | a format without % prints itself |
| `Stdio.OtherPrinted` | lib/stdio.c:44-75 | % with another letter prints nothing |
| `Stdio.ExpandAppend` | lib/stdio.c:29-78 | two formats in a row expand to their expansions in a row |
| `Stdio.TextNul` | lib/stdio.c:58-61 | the text holds a NUL exactly when %c was given a zero character |
| `Stdio.LengthReturned` | lib/stdio.c:77 | the result is the length of the expansion exactly when no zero character was asked for |
| `Stdio.LengthDiffers` | lib/stdio.c:28 | printing %c with a zero character gives a text of length 1 and the result 0 |
| `Stdio.StrCpy` | lib/string.c:42-51 | the characters are copied, no terminator is written, nothing else changes |
| `Stdio.StrLen` | lib/string.c:54-59 | the place of the first NUL |
| `Stdio.Itoa` | lib/stdio.c:10-26 | the digits stand at the cursor, which has moved past them, and nothing else changes |
| `Stdio.PutDecimal` | lib/stdio.c:63-71 | sign and magnitude stand at the cursor, the least value included |
| `Stdio.PutArg` | lib/stdio.c:46-73 | one conversion stands at the cursor |
| `Stdio.Vsprintf` | lib/stdio.c:29-78 | the buffer holds exactly the expansion; the result is its length up to the first NUL; %s of NULL stops the machine |

## Left out

- Boot code, interrupt entry stubs, switch.S, print.S and port I/O: assembly and devices; boot/loader.S is used for the initial page directory only.
- The TLB, the TSS, descriptor tables and privilege checks: UserMayWrite says what the entries allow, but a walk reads the tables as they are, and switch_to is a change of the running thread.
- Locks around the allocator: the memory modules are sequential. page_table_map takes kernel frames while a user allocation holds only the user pool's lock (kernel/memory.c:170, :221), so not every bitmap change is under its own lock.
- Uniqueness of pids: the counter is read after its lock is released (thread/thread.c:57-60), so it fails under preemption.
- Starvation freedom of semaphores: sema_up hands nothing over, and a woken thread can be overtaken.
- Liveness of an ioqueue with several consumers or blocking producers: neither side looks at the queue again after waiting for the lock (device/ioqueue.c:52-56, :77-81). FIFO order is proved for any callers.
- get_user_pages (kernel/memory.c:220-228) as code: malloc_page and a memset, as in get_kernel_pages; HeapRuns has it as a step.
- Other string routines, list_traversal, the console, system calls, init and main: simple loops and plumbing.
- HeapMemory.HeapMemory.SysMalloc: works on the words of one address space and takes malloc_page's answer as a parameter; Allocator has the page level. HeapStores ties the stores of clients to physical words, not those of the allocator itself.
- Machine.Machine.MfreePage: requires mapped pages and no page directory among them; the code does not look.
- Machine.Machine.GetAPage: requires the page to lie in the caller's virtual bitmap; IndexNeverNegative says that the assertion never fails and that the write would then go outside the bitmap.
- Allocator.Allocator.PlacePage: requires the page to lie in the caller's virtual bitmap, for the same reason.
- Allocator.Allocator.SysFree: requires NULL or a live pointer; the code does not look whether a block is free already.
- Lists.List.Pop: requires a non-empty list; on an empty one the code unlinks the tail sentinel.
- The objects behind the unprotected statements of lock_acquire and lock_release: holder and holder_repeat_cnt are fields of the step system only; the semaphore inside a lock is an object.
- Lists that change while thread_start's search runs, as objects: Threads has the appends with interrupts off; the search that can be preempted is a step system with a cursor.
- Semaphores.Semaphore.Down: one stretch between two switches of threads; Locks and LockRuns interleave the stretches.
- The waiting of a thread in an ioqueue's slot, at the level of Kernel: IoQueues has it on the scheduler's links, Locks and LockRuns as steps.
- LockRuns.SeekStep: the step stops where the search is off the list and does not follow the links from there; LinksLeadAway does for semaphores.
- Threads.Scheduler.TimerHandler: has no stack_magic assertion, like TickInv.
- Semaphores.Kernel.Timer: has none either.
- Scheduling.TickInv: does not model the assertion on stack_magic (device/timer.c:40), since thread stacks are not modelled.
- PageTables.BootStands: takes the page table entries of the kernel heap as not present; the loader does not write them.
- Machine.Machine.constructor: makes the same assumption about the loader's words.
- PageRuns.GetAPageCorrect: for a page not yet mapped; GetAPageTwice has the other case.
- PageRuns.NoPteRepeat: for runs that do not ask get_a_page for a mapped page; GetAPageTwice says what happens then.
- PageRelease.MfreePageCorrect: for mapped pages that hold no page directory; the code does not look.
- Locks.NextMoveGood: holder_repeat_cnt is unbounded; 2^32 nested acquisitions would wrap.
- LockRuns.TagOnOneList: TASK_BLOCKED, TASK_WAITING and TASK_HANGING are one state, since no code tells them apart.
- KeyboardRuns.NoWakeupLost: for one consumer thread and the keyboard handler as the only producer.
- Stdio.Vsprintf: requires a zeroed buffer with room for the text and a NUL, a format that does not end in a lone %, and arguments of the kinds the format names; the code writes no terminator and looks at none of these.
- Stdio.Itoa: for bases from 2 to 36; the callers pass 10 and 16.
