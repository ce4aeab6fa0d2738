/**
  What every module shares.  A failed ASSERT or a PANIC stops the machine
  (NDEBUG is not defined), so it is an outcome of its own and carries the
  assertion that failed.
 */
module Outcomes {

  datatype Fault =
    | BitmapFull      // lib/kernel/bitmap.c: a scan found no byte with a clear bit
    | BadPageCount    // kernel/memory.c: malloc_page called with 0 or with 3840 or more pages
    | StackOverlap    // kernel/memory.c: a user range reached the page reserved for the stack
    | PteRepeat       // kernel/memory.c: a page table entry was already present
    | BadPointer      // kernel/memory.c: a kernel thread frees an address below its heap
    | NullPointer     // lib/string.c: clearing or copying through NULL; kernel/memory.c: freeing NULL
    | BadAlignment    // kernel/memory.c: mfree_page of an address inside a page
    | WrongContext    // kernel/memory.c: get_a_page for the wrong kind of thread
    | NodeMissing     // kernel/memory.c: a block of a full arena is not on its free list
    | NodeRepeat      // a node is already on the list it is to be added to
    | OffList         // thread/thread.c: the search of the ready list stands on a tag that has left it
    | NoReadyThread   // thread/thread.c: nothing to dispatch
    | BadStatus       // thread/thread.c: unblocking a thread that is not blocked
    | BadValue        // thread/sync.c: a semaphore value outside 0 and 1
    | BadRepeatCount  // thread/sync.c: a lock's repetition count is wrong
    | NotHolder       // thread/sync.c: a release by a thread that does not hold the lock
    | SlotTaken       // device/ioqueue.c: a second waiter for one slot

  datatype Outcome<+T> = Ok(value: T) | Panic(fault: Fault)

  datatype Option<+T> = None | Some(value: T)

  /** No element twice. */
  ghost predicate Distinct<T>(s: seq<T>) {
    forall i, j :: 0 <= i < j < |s| ==> s[i] != s[j]
  }
}
