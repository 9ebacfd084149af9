# Weenix, verified models

Weenix is a small teaching kernel with a user land and a tool that builds file system
images. This project models, in Dafny, the parts of it whose correctness rests on invariants
that no single function shows, and proves what those parts promise for every input, every
run or every reachable state. `dafny verify dfyconfig.toml` checks all of it.

Code that works in place is modelled in place (classes, arrays, loops); each such method is
tied to a function or predicate of the state before it, and the promises are lemmas about
that function. Code whose calls block in the middle is a state machine whose events are the
stretches between two points where a thread may sleep.

| files | part of Weenix | central result |
|---|---|---|
| QuadDivide | 64-bit division in base 2^16, Knuth's Algorithm D | exact quotient and remainder for all operands; the digit estimate is never low and at most one high; nothing leaves 32 bits |
| BuddyBlocks, PageAllocator | buddy page allocator | one parity bit per pair suffices: every bit is right, every join unlinks a listed block, the free lists are a function of the set of free pages, and an allocation fails only if no aligned run is free |
| EdPattern, EdMachine, EdTexts | regular expressions of ed | the compiler accepts exactly the pattern texts that fit and writes their code; running the code finds the leftmost match with stars resolved longest-first, or there is none; the two together are a statement about the text of the pattern alone, so that a word finds its first occurrence and a class the first character in it |
| Vmmap | address-space map | what unmapping and fixed mapping do to every page, and exactly when the order of the list, the emptiness test and split offsets go wrong |
| Scheduler, SchedulerEvents, SchedulerRuns, Kernel | scheduler and mutexes | over all runs: no thread lost, one thread inside a mutex, waiters served in order, a turn on the run queue comes after as many switches as there are threads ahead, -EINTR comes back exactly if the thread has been cancelled |
| PageFrames, ShadowDaemon | page cache and shadow daemon | the hash is a map; a pass of the daemon changes no page that any area sees, fails its assertion exactly on crowded chains and else leaves all chains tidy |
| S5Disk, S5Files, Simdisk | S5 file system | the chained free list is a stack; reads return what writes put there, through direct, indirect and sparse blocks; every block is free once or used once; a write succeeds exactly if there are enough blocks, and else stops at the first that cannot be had; over runs of creating and writing, the files are what the run says |
| Virtterm | virtual terminal | the ring buffer is a scrollback of rows; redrawing and scrolling are cell-wise; exactly when the one-character shortcut is as good as redrawing |
| InitOrder | dependency-ordered initialisation | each function after its dependencies; cycles and missing ones panic; which order, and exactly when it panics, for all other tables |
| Vnodes | vnode cache | over all interleavings: one vnode per file, vget never returns a busy one; exactly when a vput lets a vnode go; a purge that nobody disturbs fails an assertion exactly if a page it needs has been freed while it slept, and else ends with no page and no reference; a waiter can be forgotten |
| Slab | slab allocator | layout of least waste; no object handed out twice, in one cache or another; reclaim takes only idle slabs and counts them |
| ElfArgs | argument image of a new program | reading the image through its user addresses gives back argv, envp, auxv and the header table |

Arith, Common, Lists and Words hold arithmetic facts, the option type, lists without
repetition and the little-endian encoding of 32-bit words.

## Where the code differs from what it says

The model follows the code. Each point below is a lemma with a concrete case or an exact
condition.

- The body of `list_iterate_begin` is a `do ... while (0)` inside the loop, so a `break` in it
  only ends one turn. `vmmap_insert` therefore puts an area that belongs before some other
  area right before the last one (`Vmmap.InsertSortedIff`, `Vmmap.InsertUnsorts`), and
  `vmmap_is_range_empty` answers for the last area alone (`Vmmap.SaysEmptyExact`,
  `Vmmap.SaysEmptyWrongly`).
- For the same reason `vmmap_lookup` finds the last area that covers a page, not the first
  (`Vmmap.VmMap.Lookup`).
- Through that insertion `vmmap_remove` puts the list out of order when it splits an area
  before the last two (`Vmmap.RemoveSortedIff`, `Vmmap.RemoveUnsorts`), and a fixed mapping
  does when the area before the last reaches beyond it (`Vmmap.MapFixedSortedIff`).
- The upper part of an area that `vmmap_remove` splits gets an offset that is short by the
  length of the lower part (`Vmmap.ObjectPagesIff`).
- A page group whose pages do not make up whole largest blocks starts with wrong bits, so
  that the join can unlink a page that is on no list (`BuddyBlocks.RemainderBreaksParity`,
  `BuddyBlocks.InitBitsRight`).
- `page_alloc_n` casts the count to `int`: from 2^31 pages on it hands out a single page
  (`PageAllocator.EnoughPages`).
- `kmutex_lock_cancellable` can return -EINTR to a caller that holds the mutex
  (`SchedulerRuns.EintrWhileHolding`); it does exactly if an unlock ended the wait
  (`SchedulerRuns.HandedOver`).
- The shadow daemon asserts that an object it does not fold has two references besides its
  pages; with three parents the assertion fails (`ShadowDaemon.Walk`).
- `vget` lets others wait while it reads a vnode in, but never wakes them (`Vnodes.WaiterStays`,
  `Vnodes.WaiterForgotten`).
- A purge in `vput` sleeps on a busy page with the page after it already saved, and assumes
  that both are there when it wakes. The page-out daemon frees the page that it has just
  cleaned, and the purge then frees it again and panics (`Vnodes.FreedWhileWaiting`). It wakes
  without harm exactly if neither is gone (`Vnodes.PurgeExact`, `Vnodes.ResumeExact`).
- A vnode is not busy while it is purged, so that `vget` hands it out. The purge then fails its
  assertion on the count of references (`Vnodes.GotWhilePurged`), unless the reference has been
  given back and no page has been left (`Vnodes.ResumeExact`, `Vnodes.GivenBackInTime`).
- The comment of `vput` tells of an artificial reference during a purge. The code takes none,
  and none is needed for the purge not to start again (`Vnodes.PurgeNotReentered`).
- `Inode.write` puts data into the blocks before it knows that there are enough, and sets the
  size only at the end. What a failed write leaves past the end of the file shows when a later
  write extends it: the file reads right exactly if there are zeros from its old end to the
  data (`S5Files.WrittenExact`).
- `_calc_slab_size` keeps the size of a one-object slab in an `int`: from 2^31 on it settles for
  single pages that hold no object (`Slab.CalcSlabSize`).
- `pframe_pin` and `pframe_unpin` are not implemented; the model follows their comments.
- A dependency shared by two functions of one search panics like a circular one
  (`InitOrder.SharedPanics`).
- A character typed where the screen is scrolled past the end of the text is drawn below it
  (`Virtterm.OutOfSight`, `Virtterm.DrawnPastEnd`).
- The signed division of the least number by -1 gives the least number (`QuadDivide.SDiv`).

## Model

| member | source | states |
|---|---|---|
| QuadDivide.BitOrDisjoint | weenix/kernel/util/math.c:110 | `\|` is `+` when one operand is a multiple of 2^k and the other is below 2^k, which is why COMBINE joins digits |
| QuadDivide.EstimateNotBelow | weenix/kernel/util/math.c:257-279 | the quotient of the leading digits is never below the true digit |
| QuadDivide.EstimateTooBig | weenix/kernel/util/math.c:280-285 | where the two-digit test fails the estimate is strictly above the true digit, so that decrementing is safe |
| QuadDivide.EstimateClose | weenix/kernel/util/math.c:257-285 | an estimate that passes the test, or whose remainder has outgrown a digit, is the true digit or one more |
| QuadDivide.EstimateDigit | weenix/kernel/util/math.c:266-285 | step D3 with its jump into the loop gives the true digit or one more, below B, with all products in 32 bits |
| QuadDivide.ShiftLeft | weenix/kernel/util/math.c:125-133 | the digits are multiplied by 2^sh, less what falls out at the left, the high part of the leading digit; digits before them stay |
| QuadDivide.MultiplySubtract | weenix/kernel/util/math.c:292-298 | the window becomes window - qhat * divisor + borrow * B^(n+1), and nothing else changes |
| QuadDivide.AddBack | weenix/kernel/util/math.c:305-313 | the window becomes window + divisor - carry * B^(n+1), and nothing else changes |
| QuadDivide.DigitSettled | weenix/kernel/util/math.c:299-314 | a borrow means that the estimate was one too large; after the correction the digit and the window are quotient and remainder |
| QuadDivide.DivideDigit | weenix/kernel/util/math.c:254-315 | one turn gives the true quotient digit and leaves the remainder, below the divisor, under a zero leading digit |
| QuadDivide.DivideDigits | weenix/kernel/util/math.c:251-315 | for normalised digits, dividend = quotient * divisor + remainder with remainder below divisor, and the leading digits are zero |
| QuadDivide.Normaliser | weenix/kernel/util/math.c:244-246 | the shift brings the leading divisor digit into [B/2, B) and is below 16 |
| QuadDivide.Normalise | weenix/kernel/util/math.c:244-250 | dividend and divisor are scaled by the same power of two, with no digit lost |
| QuadDivide.Unscale | weenix/kernel/util/math.c:317-332 | scaling both operands keeps the quotient and scales the remainder |
| QuadDivide.DividendLength | weenix/kernel/util/math.c:232-233 | skipping leading zeros leaves m >= 0 more digits than the divisor, and the same number |
| QuadDivide.ShortDivide | weenix/kernel/util/math.c:199-224 | the unrolled division by one digit gives exact quotient and remainder |
| QuadDivide.ShiftBack | weenix/kernel/util/math.c:323-328 | the digits are divided by 2^d, each from itself and its neighbour |
| QuadDivide.Remainder | weenix/kernel/util/math.c:322-332 | the shifted-back digits are the remainder of the unscaled operands |
| QuadDivide.LongDivide | weenix/kernel/util/math.c:226-336 | for a divisor of two digits or more, exact quotient, and remainder where it is asked for |
| QuadDivide.QDivRem | weenix/kernel/util/math.c:143-337 | for all 64-bit u and v: traps iff v is 0, else returns u / v and, if asked, u % v |
| QuadDivide.UDiv | weenix/kernel/util/math.c:364-368 | unsigned quotient for all operands |
| QuadDivide.UMod | weenix/kernel/util/math.c:374-381 | unsigned remainder for all operands |
| QuadDivide.SDiv | weenix/kernel/util/math.c:344-359 | what the quotient leaves over is smaller than the divisor and has the sign of the dividend; but the least number divided by -1 comes back as the least number |
| QuadDivide.RoundedOneWay | weenix/kernel/util/math.c:344-359 | no other quotient leaves that over |
| BuddyBlocks.BuddyHalves | weenix/kernel/mm/page.c:140-150 | a block and its buddy are the two halves of one aligned parent, and buddies are each other's |
| BuddyBlocks.CanonicalDisjoint | weenix/kernel/mm/page.c:272-294 | two canonical blocks of a set of free pages that share a page are the same block |
| BuddyBlocks.TakeBlock | weenix/kernel/mm/page.c:252-269 | taking one canonical block away leaves exactly the others canonical |
| BuddyBlocks.PutBlock | weenix/kernel/mm/page.c:304-330 | giving back a block whose buddy is not all free adds exactly that canonical block |
| BuddyBlocks.ParityToggle | weenix/kernel/mm/page.c:152-175 | moving one block on or off its list while flipping the bit above keeps all bits right |
| BuddyBlocks.PendingBit | weenix/kernel/mm/page.c:272-294 | the bit over the block just freed is set iff its buddy is not on the list of that order |
| BuddyBlocks.SplitPending | weenix/kernel/mm/page.c:152-175 | the asserted bit over the halves is clear, and the upper half is the next block to be handed out |
| BuddyBlocks.JoinPending | weenix/kernel/mm/page.c:272-294 | where the join unlinks a buddy, it is on that very list; the parent is then the block in question |
| BuddyBlocks.JoinDone | weenix/kernel/mm/page.c:272-294 | where the join stops, the lists are canonical again |
| BuddyBlocks.Determined | weenix/kernel/mm/page.c:186-330 | free lists (as sets) and bits are a function of the set of free pages |
| BuddyBlocks.FreeBlocksApart | weenix/kernel/mm/page.c:186-330 | listed blocks are aligned, in range, all free and pairwise disjoint, and no two buddies are both listed |
| BuddyBlocks.RunIsListed | weenix/kernel/mm/page.c:186-226 | an aligned free run of 2^k pages means that some list of order k or more is not empty |
| BuddyBlocks.AllFree | weenix/kernel/mm/page.c:304-330 | with all pages free there are only largest blocks and clear bits, as at the start |
| BuddyBlocks.InitInv | weenix/kernel/mm/page.c:71-88 | a new group of whole largest blocks satisfies the invariant |
| BuddyBlocks.RemainderBreaksParity | weenix/kernel/mm/page.c:71-79 | in any other group a listed block has a clear bit and a buddy that is not listed and lies beyond the group, also after it has been allocated and freed |
| BuddyBlocks.InitBitsRight | weenix/kernel/mm/page.c:54-88 | the bits over the listed blocks of a new group are right iff its pages make up whole largest blocks |
| PageAllocator.PageGroup.constructor | weenix/kernel/mm/page.c:36-91 | lists and maps of a new group, valid if it is made of whole largest blocks |
| PageAllocator.PageGroup.SplitHead | weenix/kernel/mm/page.c:152-175 | one split, with the source's assertion proved |
| PageAllocator.PageGroup.SplitDown | weenix/kernel/mm/page.c:202-205 | repeated splits end with a block of the wanted order at the head of its list |
| PageAllocator.PageGroup.TakeHead | weenix/kernel/mm/page.c:252-269 | the block handed out was free and not live; free pages and live blocks change by it alone |
| PageAllocator.PageGroup.Join | weenix/kernel/mm/page.c:272-294 | from one freed block, joining restores the invariant and frees nothing else |
| PageAllocator.PageGroup.Release | weenix/kernel/mm/page.c:304-330 | exactly the pages of a live block become free and it stops being live |
| PageAllocator.RoundTrip | weenix/kernel/mm/page.c:235-330 | allocating and freeing restores free pages, live blocks, every list as a set and every bit |
| PageAllocator.PartitionTake | weenix/kernel/mm/page.c:235-270 | free pages and live blocks keep partitioning the group on allocation |
| PageAllocator.PartitionPut | weenix/kernel/mm/page.c:304-330 | and on release |
| PageAllocator.FreedAll | weenix/kernel/mm/page.c:304-330 | with every live block freed, lists (as sets) and bits are those of a new group |
| PageAllocator.OrderFor | weenix/kernel/mm/page.c:365-369 | the least order that holds the count, or the panic if none does |
| PageAllocator.EnoughPages | weenix/kernel/mm/page.c:360-374 | the order holds npages pages iff npages is below 2^31; from there on it is order 0 |
| PageAllocator.PageSystem.AddRange | weenix/kernel/mm/page.c:111-125 | a range of whole largest blocks is added all free, and the count grows by it |
| PageAllocator.PageSystem.SplitLarger | weenix/kernel/mm/page.c:186-226 | finds and splits a larger block unless there is none in any group; no page changes hands |
| PageAllocator.PageSystem.AllocOrder | weenix/kernel/mm/page.c:235-270 | fails iff no group has an aligned free run of 2^order pages; else hands out the head of the first list of that order, or the top end of the head of the first larger one, all else unchanged, and the count is exact |
| PageAllocator.PageSystem.FreeOrder | weenix/kernel/mm/page.c:304-330 | only the block's pages become free, in its group; an address in no group is ignored |
| PageAllocator.PageSystem.AllocN | weenix/kernel/mm/page.c:360-374 | panics iff no order is large enough; else allocates the least order that holds the count |
| PageAllocator.PageSystem.FreeN | weenix/kernel/mm/page.c:380-393 | frees the block that an allocation of the same count gave, and ignores exactly the addresses in no group |
| EdPattern.RunIsBest | weenix/user/bin/ed.c:1347-1428 | the backtracking run finds counts that match, preferred (longest first) to all counts that match, and finds none only if there are none |
| EdPattern.TryIsBest | weenix/user/bin/ed.c:1415-1423 | the same for a starred node tried from n repetitions down |
| EdPattern.ParseWellFormed | weenix/user/bin/ed.c:1188-1296 | every text that parses gives a well-formed pattern |
| EdPattern.ParseBracketsDistinct | weenix/user/bin/ed.c:1228-1242 | no bracket occurs twice in a pattern |
| EdPattern.PatternFits | weenix/user/bin/ed.c:1188-1296 | a compiled pattern is what execute needs |
| EdPattern.ParseShow | weenix/user/bin/ed.c:1188-1296 | round trip: the text of a pattern parses to that pattern |
| EdMachine.Ed.CompileClass | weenix/user/bin/ed.c:1268-1285 | a class is read and coded, or is in error, as the text says |
| EdMachine.Ed.CompileEscape | weenix/user/bin/ed.c:1227-1247 | brackets and quoted characters likewise, with the bracket stack |
| EdMachine.Ed.CompilePlain | weenix/user/bin/ed.c:1261-1290 | a literal likewise, with a dollar before the delimiter as the end of the line |
| EdMachine.Ed.CompileAtom | weenix/user/bin/ed.c:1225-1291 | every other character likewise |
| EdMachine.Ed.CompileBody | weenix/user/bin/ed.c:1215-1292 | the loop compiles exactly the texts that parse and whose code fits |
| EdMachine.Ed.Compile | weenix/user/bin/ed.c:1188-1296 | succeeds iff the text denotes a pattern whose code fits the buffer, which then holds that code and the anchor; an empty text keeps the last pattern |
| EdMachine.Ed.CClass | weenix/user/bin/ed.c:1430-1444 | membership in the class at ep, with the given sense |
| EdMachine.Ed.MatchOne | weenix/user/bin/ed.c:1356-1387 | a single-character instruction takes a character iff its node accepts it |
| EdMachine.Ed.ScanStar | weenix/user/bin/ed.c:1397-1413 | the scan of a starred instruction ends after the longest run of accepted characters |
| EdMachine.Ed.Backtrack | weenix/user/bin/ed.c:1415-1423 | the loop at star finds the preferred continuation, or there is none |
| EdMachine.Ed.Advance | weenix/user/bin/ed.c:1347-1428 | the code matches iff its pattern does, with the preferred counts, the end and the bracket marks they imply |
| EdMachine.FoundAt | weenix/user/bin/ed.c:1319-1345 | the first place where a run succeeds is the leftmost match |
| EdMachine.FirstCharacter | weenix/user/bin/ed.c:1325-1335 | the fast path tests the literal with which every match begins |
| EdMachine.Ed.Execute | weenix/user/bin/ed.c:1298-1345 | succeeds iff the pattern matches somewhere (at the start, if anchored), with loc1, loc2 and the brackets of the leftmost, longest-first match |
| EdMachine.Search | weenix/user/bin/ed.c:496-510 | compiling a text and running it on a line: no pattern iff the text denotes none that fits, else the leftmost, longest-first match of what it denotes, with its brackets marked, or none |
| EdTexts.NodeMeaning | weenix/user/bin/ed.c:1347-1444 | what a single node matches, for each kind of atom in terms of the line alone |
| EdTexts.MatchesBoth | weenix/user/bin/ed.c:1347-1428 | nodes one after the other match stretches one after the other |
| EdTexts.FindsWord | weenix/user/bin/ed.c:1188-1345 | a text of ordinary characters finds its first occurrence in the line |
| EdTexts.FindsClass | weenix/user/bin/ed.c:1188-1345 | a class finds the first character in it |
| EdTexts.FindsOther | weenix/user/bin/ed.c:1188-1345 | a negated class finds the first character not in it |
| EdTexts.FindsAny | weenix/user/bin/ed.c:1188-1345 | a dot finds the first character there is |
| EdTexts.FindsCharacter | weenix/user/bin/ed.c:1188-1345 | a character finds its first occurrence, and so does a quoted one |
| EdTexts.FindsEnd | weenix/user/bin/ed.c:1188-1345 | a dollar before the delimiter finds the end of the line |
| EdTexts.FindsDollars | weenix/user/bin/ed.c:1263-1267 | any other dollar stands for itself |
| EdTexts.FindsAtStart | weenix/user/bin/ed.c:1207-1211 | with an anchor a class is looked for at the start of the line only |
| EdTexts.FindsRun | weenix/user/bin/ed.c:1397-1423 | with a star it finds the longest run at the start of the line |
| EdTexts.FindsMarked | weenix/user/bin/ed.c:1227-1242 | brackets around it are marked where what it found begins and ends |
| EdTexts.Refused | weenix/user/bin/ed.c:1212-1296 | texts that denote no pattern: without a delimiter, with a class that does not end, and with stars, newlines and brackets out of place |
| Vmmap.InsertSortedIff | weenix/kernel/vm/vmmap.c:101-141 | a sorted list stays sorted iff at most its last area starts above the new one |
| Vmmap.InsertUnsorts | weenix/kernel/vm/vmmap.c:101-141 | three areas and a new one below them that ends up out of order |
| Vmmap.InsertedPermutes | weenix/kernel/vm/vmmap.c:101-141 | inserting adds that area and loses none |
| Vmmap.RemoveMeaning | weenix/kernel/vm/vmmap.c:458-504 | exactly the pages of the range are unmapped, every other page keeps protection, flags and object, and areas stay disjoint |
| Vmmap.RemovedPermutes | weenix/kernel/vm/vmmap.c:458-504 | walking the list while it changes, insertions included, cuts every area exactly once |
| Vmmap.RemoveSortedIff | weenix/kernel/vm/vmmap.c:458-504 | a sorted list stays sorted iff no area before the last two is split |
| Vmmap.RemoveUnsorts | weenix/kernel/vm/vmmap.c:466-475 | three areas, the first of which is split, and the order that results |
| Vmmap.ObjectPagesIff | weenix/kernel/vm/vmmap.c:466-499 | every page keeps its page of the object iff no area is split |
| Vmmap.SplitMoves | weenix/kernel/vm/vmmap.c:466-475 | by how much the upper part of a split area is off |
| Vmmap.SaysEmptyExact | weenix/kernel/vm/vmmap.c:510-534 | exactly when the answer of the emptiness test is wrong, both ways |
| Vmmap.SaysEmptyWrongly | weenix/kernel/vm/vmmap.c:510-534 | a mapped range that is taken for empty |
| Vmmap.MapFixedMeaning | weenix/kernel/vm/vmmap.c:370-421 | the areas stay disjoint iff the test overlooked nothing, and then exactly the new range is overlaid |
| Vmmap.MapFixedSortedIff | weenix/kernel/vm/vmmap.c:370-421 | where the test overlooked nothing, the list stays sorted iff at most the last area reaches beyond the new one |
| Vmmap.VmMap.Insert | weenix/kernel/vm/vmmap.c:101-141 | the loop puts the area where `InsertAt` says |
| Vmmap.VmMap.Lookup | weenix/kernel/vm/vmmap.c:206-227 | finds an area iff one covers the page, and of several the last |
| Vmmap.VmMap.IsRangeEmpty | weenix/kernel/vm/vmmap.c:510-534 | the loop answers for the last area |
| Vmmap.VmMap.Remove | weenix/kernel/vm/vmmap.c:458-504 | the loop leaves the list that `Removed` says, area by area and in that order |
| Vmmap.VmMap.RemoveFrom | weenix/kernel/vm/vmmap.c:463-500 | one turn of it: the list afterwards and the area that comes next |
| Vmmap.VmMap.MapFixed | weenix/kernel/vm/vmmap.c:370-421 | the new list, in its order, in every case of failure and success |
| Scheduler.NextKeeps | weenix/kernel/proc/sched.c:108-315 | every event keeps the invariant of threads, queues and mutexes |
| Scheduler.AfterInv | weenix/kernel/proc/sched.c:108-315 | so it holds after every run |
| Scheduler.ReturnHolds | weenix/kernel/proc/kmutex.c:35-76 | a return from kmutex_lock, or of 0 from kmutex_lock_cancellable, is to the holder |
| SchedulerEvents.SleepExact | weenix/kernel/proc/sched.c:108-151 | the current thread sleeps at the end of the queue, cancellably or not, and the first runnable one goes on; all else stays |
| SchedulerEvents.LockExact | weenix/kernel/proc/kmutex.c:35-76 | a free mutex is taken at once, whichever way it is asked for, and nothing else changes; else the thread sleeps |
| SchedulerEvents.UnlockExact | weenix/kernel/proc/kmutex.c:92-108 | the mutex is free, or the thread that has waited longest holds it and is runnable |
| SchedulerEvents.WakeupOnExact | weenix/kernel/proc/sched.c:153-175 | the thread that has slept longest goes to the end of the run queue |
| SchedulerEvents.BroadcastExact | weenix/kernel/proc/sched.c:177-186 | all who sleep there do, in their order |
| SchedulerEvents.CancelExact | weenix/kernel/proc/sched.c:197-211 | the thread is marked; if it sleeps cancellably, on whatever queue, it becomes runnable, and else stays where it is |
| SchedulerEvents.YieldExact | weenix/kernel/proc/sched.c:249-315 | a thread that yields comes after all that are runnable |
| SchedulerEvents.ExitExact | weenix/kernel/proc/sched.c:249-285 | a thread that ends is on no queue |
| SchedulerEvents.SpawnExact | weenix/kernel/proc/sched.c:301-315 | a new thread comes after all that are runnable |
| SchedulerEvents.ReturnExact | weenix/kernel/proc/sched.c:122-151 | a blocked call returns; who called for a mutex is inside then, unless the call was cancellable and the thread is marked |
| SchedulerEvents.ResumeExact | weenix/kernel/proc/sched.c:249-285 | an idle processor goes to the first runnable thread |
| SchedulerEvents.MarkedRun | weenix/kernel/proc/sched.c:197-211 | over every run, a thread is marked iff it has been cancelled |
| SchedulerEvents.EintrExact | weenix/kernel/proc/sched.c:122-151 | over every run from the start, a call is about to return -EINTR iff it is cancellable and its thread has been cancelled |
| SchedulerRuns.AtMostOneQueue | weenix/kernel/proc/sched.c:30-85 | in every reachable state a thread is on at most one queue and kt_wchan names it |
| SchedulerRuns.NoneLost | weenix/kernel/proc/sched.c:108-315 | sizes are lengths; a runnable thread is current or on the run queue, a sleeping one on some other queue, any other on none |
| SchedulerRuns.OneInside | weenix/kernel/proc/kmutex.c:35-108 | at most one thread is inside a mutex, it is the holder, and waiters imply a holder |
| SchedulerRuns.WaitStep | weenix/kernel/proc/kmutex.c:35-108 | what every event does to the waiters of a mutex, and whom it grants it |
| SchedulerRuns.InOrder | weenix/kernel/proc/kmutex.c:35-108 | over every run, arrivals (less the cancelled) are the grantees so far followed by those still waiting |
| SchedulerRuns.TurnStep | weenix/kernel/proc/sched.c:249-315 | a switch brings a runnable thread one place nearer, nothing else moves it back |
| SchedulerRuns.Turn | weenix/kernel/proc/sched.c:249-315 | after k switches a thread with n >= k ahead of it is k places nearer |
| SchedulerRuns.TurnComes | weenix/kernel/proc/sched.c:249-315 | the switch after n switches makes it current |
| SchedulerRuns.LeaveStep | weenix/kernel/proc/kmutex.c:58-108 | a waiter leaves the wait by an unlock, as holder, or by a cancel, not as holder |
| SchedulerRuns.LeavingRun | weenix/kernel/proc/kmutex.c:58-108 | until it returns, no run changes whether it holds the mutex |
| SchedulerRuns.HandedOver | weenix/kernel/proc/kmutex.c:58-108 | whatever its result, the call returns holding the mutex iff an unlock ended the wait |
| SchedulerRuns.EintrWhileHolding | weenix/kernel/proc/kmutex.c:58-76 | a reachable return of -EINTR to the holder |
| Kernel.Kernel.constructor | weenix/kernel/proc/sched.c:14-18 | the initial state satisfies the invariant |
| Kernel.Kernel.KtqueueEnqueue | weenix/kernel/proc/sched.c:30-42 | the queue operation of the state machine |
| Kernel.Kernel.KtqueueDequeue | weenix/kernel/proc/sched.c:50-69 | the thread that came first, or none |
| Kernel.Kernel.KtqueueRemove | weenix/kernel/proc/sched.c:77-85 | removal from the middle |
| Kernel.Kernel.SchedMakeRunnable | weenix/kernel/proc/sched.c:301-315 | the thread joins the run queue |
| Kernel.Kernel.SchedSwitch | weenix/kernel/proc/sched.c:249-285 | the first runnable thread becomes current, or the processor idles |
| Kernel.Kernel.SchedSleepOn | weenix/kernel/proc/sched.c:108-151 | blocking is the state machine's, with queues and kt_wchan linked |
| Kernel.Kernel.SchedWakeupOn | weenix/kernel/proc/sched.c:153-175 | wakes the thread that waited longest |
| Kernel.Kernel.SchedBroadcastOn | weenix/kernel/proc/sched.c:177-186 | the loop wakes all, in order |
| Kernel.Kernel.SchedCancel | weenix/kernel/proc/sched.c:197-211 | the event of the state machine, invariant kept; a cancellable sleeper becomes runnable |
| Kernel.Kernel.KmutexLock | weenix/kernel/proc/kmutex.c:35-76 | the event of the state machine, invariant kept; it returns without blocking iff the mutex was free, to the holder, and then nothing else changes |
| Kernel.Kernel.KmutexUnlock | weenix/kernel/proc/kmutex.c:92-108 | the event of the state machine, invariant kept; the first waiter holds the mutex, or nobody |
| Kernel.Kernel.Leave | weenix/kernel/proc/sched.c:141-150 | the return from a blocked call, with -EINTR iff it is cancellable and the thread marked; without it a locker is the holder |
| PageFrames.InsertOk | weenix/kernel/mm/pframe.c:225-256 | a new frame keeps hash, lists and counters in step |
| PageFrames.DeleteOk | weenix/kernel/mm/pframe.c:458-491 | so does removing an unpinned frame |
| PageFrames.MoveOk | weenix/kernel/mm/pframe.c:321-342 | so does moving a frame to another object, and chain |
| PageFrames.LookupIs | weenix/kernel/mm/pframe.c:189-210 | searching one hash chain decides residency: the hash is the map from identities to frames |
| PageFrames.WithoutOrdered | weenix/kernel/mm/pframe.c:189-210 | taking a frame off keeps the list in order of last request |
| PageFrames.AppendOrdered | weenix/kernel/mm/pframe.c:189-256 | putting the one just requested at its end does too |
| PageFrames.PageCache.GetResident | weenix/kernel/mm/pframe.c:189-210 | finds the frame iff it is resident, and makes it the most recently requested if unpinned |
| PageFrames.PageCache.Alloc | weenix/kernel/mm/pframe.c:225-256 | the new frame unpinned, clean and with its data, with a page and a reference more for its object alone; or nothing without memory |
| PageFrames.PageCache.Pin | weenix/kernel/mm/pframe.c:344-361 | one pin more; off the list of unpinned frames at the first |
| PageFrames.PageCache.Unpin | weenix/kernel/mm/pframe.c:363-377 | one pin less; back on it at the last |
| PageFrames.PageCache.Clean | weenix/kernel/mm/pframe.c:418-448 | only the dirty flag of an unpinned page changes |
| PageFrames.PageCache.Free | weenix/kernel/mm/pframe.c:458-491 | the frame is gone everywhere and its object alone has a page and a reference less |
| PageFrames.PageCache.Migrate | weenix/kernel/mm/pframe.c:321-342 | the page moves to the object above, or is dropped if there is a newer one; no object has more or fewer references besides its pages |
| ShadowDaemon.MigratePages | weenix/kernel/mm/pframe.c:321-342 | seen through the pair of objects, migrating a page changes no page |
| ShadowDaemon.AllocCounted | weenix/kernel/mm/pframe.c:225-256 | a new page keeps it that the counts are resident pages + parents + areas + temporary references |
| ShadowDaemon.FreeCounted | weenix/kernel/mm/pframe.c:458-491 | so does freeing one |
| ShadowDaemon.AllocShows | weenix/kernel/mm/pframe.c:225-256 | a new page is what its object has there, and no other page changes |
| ShadowDaemon.RelinkedView | weenix/kernel/vm/shadowd.c:74-91 | with its pages moved up, unlinking the object changes nothing that any other object shows |
| ShadowDaemon.RelinkedCounted | weenix/kernel/vm/shadowd.c:86-91 | the counts stay resident pages + parents + areas + temporary references |
| ShadowDaemon.OnlyParent | weenix/kernel/vm/shadowd.c:72-75 | one reference besides the pages means one parent and nothing else |
| ShadowDaemon.CollapseMeaning | weenix/kernel/vm/shadowd.c:74-91 | the assertion before the last put holds, and afterwards all invariants and views do |
| ShadowDaemon.FoldedCrowded | weenix/kernel/vm/shadowd.c:93 | folding changes for no object whether its chain is crowded |
| ShadowDaemon.FoldedTidy | weenix/kernel/vm/shadowd.c:70-98 | folding keeps every tidy chain tidy |
| ShadowDaemon.MigrateAll | weenix/kernel/vm/shadowd.c:76-85 | the loop empties the object and keeps what the pair shows |
| ShadowDaemon.Collapse | weenix/kernel/vm/shadowd.c:74-91 | one object is gone, its parent shadows what it did, no view changes |
| ShadowDaemon.Advance | weenix/kernel/vm/shadowd.c:92-97 | the temporary reference moves down the chain |
| ShadowDaemon.Walk | weenix/kernel/vm/shadowd.c:64-102 | the assertion fails iff an object on the way has more than two parents; else references are as before, views unchanged and the chain tidy |
| ShadowDaemon.Pass | weenix/kernel/vm/shadowd.c:58-104 | the same for the areas of all running processes, whatever other areas there are: no view changes, the pass fails iff a chain it visits is crowded, and else leaves these tidy |
| S5Disk.FreedPushes | weenix/tools/fsmaker/api.py:70-79 | freeing pushes on the duplicate-free stack of free blocks, across a full super block too |
| S5Disk.TakenPops | weenix/tools/fsmaker/api.py:633-648 | there is no block iff the stack is empty, else allocating pops it |
| S5Disk.FreedThenTaken | weenix/kernel/fs/s5fs/s5fs_subr.c:178-210 | free then allocate returns the same block and the same list |
| Words.Encode | weenix/tools/fsmaker/api.py:76-77 | a number as four bytes, the lowest first |
| Words.Decode | weenix/tools/fsmaker/api.py:108-120 | and back |
| S5Files.ByteWhere | weenix/tools/fsmaker/api.py:203-230 | where a byte of a file is: in the 28 blocks the inode names, or those that the words of its indirect block name |
| S5Files.AttachedOk | weenix/tools/fsmaker/api.py:242-262 | giving a cleared free block to an empty slot keeps every block free once or used once, and all files' bytes |
| S5Files.BlockWrittenByte | weenix/tools/fsmaker/api.py:263-266 | writing into a block changes the bytes written, of that file alone |
| S5Files.WrittenContents | weenix/tools/fsmaker/api.py:232-270 | where zeros lie past every end, a file that has been written to is its old contents zero-extended with the data spliced in, and zeros lie past every end again |
| S5Files.WrittenExact | weenix/tools/fsmaker/api.py:232-270 | without that, it is so iff zeros lie between its old end and the data |
| S5Files.StoredExact | weenix/tools/fsmaker/api.py:232-270 | byte by byte: the data, zeros in a gap before them, and else the old contents |
| S5Files.CreatedOk | weenix/tools/fsmaker/api.py:376-386 | a new file is of the kind asked for, reads as empty and as zeros, and no other file changes |
| S5Files.CreatedTail | weenix/tools/fsmaker/api.py:376-386 | creating keeps it that zeros lie past every end |
| S5Files.ResetOk | weenix/kernel/fs/s5fs/s5fs_subr.c:287-347 | freeing an inode puts exactly its blocks on the list, each once, and leaves other files alone |
| Simdisk.Simdisk.FreeBlock | weenix/tools/fsmaker/api.py:70-79 | in place, with the node written when the super block is full |
| Simdisk.Simdisk.AllocBlock | weenix/tools/fsmaker/api.py:633-648 | in place, with the node read back when the super block is empty |
| Simdisk.Simdisk.Lookup | weenix/tools/fsmaker/api.py:214-222 | the block of a slot, direct, indirect or none |
| Simdisk.Simdisk.EnsureBlock | weenix/tools/fsmaker/api.py:242-262 | fails iff there are fewer free blocks than the slot lacks; fills no other slot and changes no byte of any file |
| Simdisk.Simdisk.WriteBlocks | weenix/tools/fsmaker/api.py:237-268 | the loop writes all of the data iff there are enough free blocks, and else what comes before the first block it cannot get |
| Simdisk.Simdisk.Write | weenix/tools/fsmaker/api.py:232-270 | succeeds iff it is a file, the end fits and there are as many free blocks as are lacking; size and bytes in every case, of a failure too |
| Simdisk.WriteThenRead | weenix/tools/fsmaker/api.py:203-270 | what has been written is read back |
| Simdisk.Simdisk.Read | weenix/tools/fsmaker/api.py:203-230 | the bytes of the file from the offset on, as many as there are, holes as zeros |
| Simdisk.Simdisk.Create | weenix/tools/fsmaker/api.py:376-386 | the next free inode as an empty file of that kind, or none; other inodes stay |
| Simdisk.Simdisk.FreeInode | weenix/kernel/fs/s5fs/s5fs_subr.c:287-347 | all blocks of the file, the indirect one included, are freed once; other files stay |
| Simdisk.Replay | weenix/tools/fsmaker/api.py:232-270 | over every run of creating and writing the files are those that the run says; it stops exactly at an operation for which there is no inode, no file or no room |
| Simdisk.ReplayThenRead | weenix/tools/fsmaker/api.py:203-270 | and reading after such a run gives the bytes of that file |
| Virtterm.TypedOk | weenix/kernel/drivers/tty/virtterm.c:402-465 | the scrollback keeps whole rows, at most one fewer than the buffer has, with the cursor in them |
| Virtterm.TypedExact | weenix/kernel/drivers/tty/virtterm.c:402-465 | by row and column: a return stays in the row, a newline goes to the next, a backspace one back, and any other character is put where the cursor is; a new last row is blank and the oldest of 124 makes room |
| Virtterm.TypeWord | weenix/kernel/drivers/tty/virtterm.c:402-465 | a word that fits its row is written over what was there |
| Virtterm.Rewrites | weenix/kernel/drivers/tty/virtterm.c:402-465 | after a return, a word of the same length takes the place of the one before |
| Virtterm.RowsGrow | weenix/kernel/drivers/tty/virtterm.c:449-459 | clearing a row at the tail appends a blank row |
| Virtterm.RowsDrop | weenix/kernel/drivers/tty/virtterm.c:441-447 | moving the head drops exactly the oldest row |
| Virtterm.ReachesTail | weenix/kernel/drivers/tty/virtterm.c:435-437 | the circular test succeeds iff the cursor leaves the last row |
| Virtterm.TailMoves | weenix/kernel/drivers/tty/virtterm.c:440-447 | the head moves iff the buffer is full |
| Virtterm.Terminal.constructor | weenix/kernel/drivers/tty/virtterm.c:123-155 | one blank row with the cursor at its start |
| Virtterm.Terminal.HandleTail | weenix/kernel/drivers/tty/virtterm.c:435-463 | the part after the cursor has moved on |
| Virtterm.Terminal.HandleChar | weenix/kernel/drivers/tty/virtterm.c:402-465 | the ring buffer does to the scrollback what typing the character does |
| Virtterm.Redraw | weenix/kernel/drivers/tty/virtterm.c:346-397 | in every case of the copying, each cell shows the text from the top, blank past the tail |
| Virtterm.ScreenIsWindow | weenix/kernel/drivers/tty/virtterm.c:346-397 | the screen is a window on the scrollback, blank past its end |
| Virtterm.PatchedShows | weenix/kernel/drivers/tty/virtterm.c:235-275 | putting one character is as good as redrawing iff it is in sight |
| Virtterm.ProvideChar | weenix/kernel/drivers/tty/virtterm.c:235-275 | the screen shows the terminal again iff the top moved or the character is in sight |
| Virtterm.ScrollBy | weenix/kernel/drivers/tty/virtterm.c:174-202 | the top moves as far as asked, but not above the head nor beyond the last row; the screen shows the terminal and the text stays |
| Virtterm.OutOfSight | weenix/kernel/drivers/tty/virtterm.c:235-275 | with the buffer full, the cursor at its start and the last row on top, the next character is not in sight though it is on the screen |
| Virtterm.DrawnPastEnd | weenix/kernel/drivers/tty/virtterm.c:174-275 | typing, erasing and scrolling lead there: a screen that does not show its terminal |
| InitOrder.CyclicUnordered | weenix/kernel/util/init.c:27-66 | with a cycle no order of all functions has each after its dependencies |
| InitOrder.Init.Call | weenix/kernel/util/init.c:27-66 | one search ends, calls what is needed in order, and without cycles panics iff something comes up twice in it |
| InitOrder.Init.CallAll | weenix/kernel/util/init.c:116-121 | without a panic every function is called once, after its dependencies; cycles panic; for ranked tables panic and order are those of `Plan` |
| InitOrder.TableOrder | weenix/kernel/util/init.c:116-121 | functions without dependencies are called in the order of the table |
| InitOrder.ListedOrder | weenix/kernel/util/init.c:27-66 | dependencies that need nothing themselves are called in the order they are listed in, and then the function |
| InitOrder.Find | weenix/kernel/util/init.c:30-38 | a name stands for the first function that has it |
| InitOrder.SharedPanics | weenix/kernel/util/init.c:46-49 | a table without cycles that panics |
| InitOrder.RankedIff | weenix/kernel/util/init.c:27-66 | a table has a ranking iff all dependencies exist and none is circular, so that `CallAll` covers every table |
| Vnodes.Cached.Vput | weenix/kernel/fs/vnode.c:228-303 | over the recursion through pframe_free, at most one purge, which ends with no pages and the vnode freed iff no reference is left |
| Vnodes.Cached.PframeFree | weenix/kernel/mm/pframe.c:458-491 | freeing a page drops a reference, and purges only where that was the last but the pages' |
| Vnodes.NextKeeps | weenix/kernel/fs/vnode.c:104-303 | every step of any thread, the steps of a purge and of those who clean and free its pages included, keeps the invariant |
| Vnodes.AfterInv | weenix/kernel/fs/vnode.c:104-303 | so it holds after every interleaving |
| Vnodes.OneVnodePerFile | weenix/kernel/fs/vnode.c:114-203 | over every run there is at most one vnode in core per file |
| Vnodes.VgetReturns | weenix/kernel/fs/vnode.c:114-203 | a vnode found is of the file asked for, not busy and has a reference more |
| Vnodes.VgetReadReturns | weenix/kernel/fs/vnode.c:114-203 | a vnode read in is returned with one reference and not busy |
| Vnodes.FindsThere | weenix/kernel/fs/vnode.c:121-151 | vget of a file in core: a vnode that is not busy is returned with one reference more, a busy one is waited for, and all else stays |
| Vnodes.FindsNone | weenix/kernel/fs/vnode.c:153-189 | of any other file: a new busy vnode is read in, or it looks again |
| Vnodes.PutExact | weenix/kernel/fs/vnode.c:228-289 | a vput lets the vnode go iff that was the last active reference, nobody purges it yet, and it has no links or no pages; then its pages up to the first busy one are freed, and else one reference goes and all else stays |
| Vnodes.PageOutExact | weenix/kernel/mm/pframe.c:458-491 | the same for the reference of a page that is freed |
| Vnodes.RefPut | weenix/kernel/fs/vnode.c:104-112 | a vput undoes a vref |
| Vnodes.PageInOut | weenix/kernel/mm/pframe.c:225-256 | freeing a page undoes bringing it in |
| Vnodes.DeleteExact | weenix/kernel/fs/vnode.c:280-303 | once a vnode is deleted there is none of its file in core, and the others are as before |
| Vnodes.PurgeNotReentered | weenix/kernel/fs/vnode.c:228-303 | while a vnode is purged, no vput for a page starts another purge or lets the last reference go |
| Vnodes.PurgeBegins | weenix/kernel/fs/vnode.c:242-269 | a purge fails no assertion before it first sleeps; it sleeps with no active reference and no page in front of the one it waits for, or has come to the end |
| Vnodes.ResumeExact | weenix/kernel/fs/vnode.c:251-269 | in every reachable state, a purge that wakes fails an assertion iff a page it needs is gone, or it comes to the end with an active reference or a page in front; else it sleeps again or ends with no page and no reference |
| Vnodes.ResumeGoesOn | weenix/kernel/fs/vnode.c:251-262 | which pages it frees before it sleeps again, and on which |
| Vnodes.OthersPass | weenix/kernel/fs/vnode.c:114-303 | what any other step can do to a sleeping purge whose file nobody looks for: free one of its pages |
| Vnodes.PurgeExact | weenix/kernel/fs/vnode.c:242-269 | over every run from the begin of a purge in which nobody looks for the file, it wakes to a failed assertion iff a page it needs is gone, and ends with no page and no reference |
| Vnodes.FreedWhileWaiting | weenix/kernel/mm/pframe.c:598-637 | a run in which the page-out daemon frees the page that the purge waits for, and the purge panics |
| Vnodes.GotWhilePurged | weenix/kernel/fs/vnode.c:242-269 | a run in which vget returns a vnode under purge, and the purge panics |
| Vnodes.GivenBackInTime | weenix/kernel/fs/vnode.c:242-269 | that run with the reference given back, in which the purge ends as it should |
| Vnodes.WaiterStays | weenix/kernel/fs/vnode.c:114-203 | only the deletion of the vnode wakes who waits for it |
| Vnodes.WaiterForgotten | weenix/kernel/fs/vnode.c:114-203 | a run that leaves a thread waiting for a vnode that is not busy |
| Slab.SlabObjsFit | weenix/kernel/mm/slab.c:92-115 | the number of objects is the largest that fits, and the waste is less than one more |
| Slab.CalcSlabSize | weenix/kernel/mm/slab.c:117-158 | panics iff no order fits; else the least waste over the orders searched, the smallest order among equals; from 2^31 on, where the size turns negative, order 0 with no object |
| Slab.ChosenLayout | weenix/kernel/mm/slab.c:117-158 | objects and slab structure lie in the block |
| Slab.ObjsApart | weenix/kernel/mm/slab.c:202-260 | objects of a slab lie in it and do not overlap |
| Slab.SlabsApart | weenix/kernel/mm/slab.c:202-260 | nor do objects of different slabs |
| Slab.CachesApart | weenix/kernel/mm/slab.c:202-260 | nor do objects in use of different caches, which every operation keeps |
| Slab.TakenOk | weenix/kernel/mm/slab.c:262-308 | the object handed out was not in use, and it alone becomes so; chains and counts stay right |
| Slab.GivenOk | weenix/kernel/mm/slab.c:310-338 | exactly the object given back stops being in use |
| Slab.GivenThenTaken | weenix/kernel/mm/slab.c:262-338 | an object given back is the next that its slab hands out, and then all is as it was |
| Slab.GrownOk | weenix/kernel/mm/slab.c:202-260 | a new slab is all free and changes nothing in use |
| Slab.SweepIs | weenix/kernel/mm/slab.c:347-379 | only idle slabs go, the count is exact, and it ends early iff the target is met |
| Slab.SweptOk | weenix/kernel/mm/slab.c:347-379 | releasing idle slabs takes no object in use |
| Slab.Link | weenix/kernel/mm/slab.c:215-228 | the loop links up all objects of the new slab and touches no other control word |
| Slab.Caches.Grow | weenix/kernel/mm/slab.c:202-260 | one slab more, or nothing without pages |
| Slab.Caches.ObjAlloc | weenix/kernel/mm/slab.c:262-308 | fails only if all slabs are full and there are no pages; else one object that was not in use, from the first slab with one, and a new slab only if there is none |
| Slab.Caches.ObjFree | weenix/kernel/mm/slab.c:310-338 | exactly that object stops being in use, and no slab goes |
| Slab.Caches.Reclaim | weenix/kernel/mm/slab.c:347-379 | everything in use stays, the result is the pages released; it stops once the target is met, else no idle slab is left |
| ElfArgs.CalcArgSize | weenix/kernel/api/elf32.c:303-347 | the size of the image |
| ElfArgs.PutStrings | weenix/kernel/api/elf32.c:389-415 | one vector of pointers and its strings, each where the other says |
| ElfArgs.PutAux | weenix/kernel/api/elf32.c:417-431 | auxv with the address of the header table, and the table behind the strings |
| ElfArgs.LoadArgs | weenix/kernel/api/elf32.c:360-438 | the buffer of that size is filled exactly, parts one after the other |
| ElfArgs.ReadBack | weenix/kernel/api/elf32.c:360-438 | following user addresses from the start gives back argc, argv, envp and auxv, and following the address in AT_PHDR the header table |

## Left out

- page.c: carving the bit maps out of the range, reclaiming and retrying when there is no page, poisoning, and wrap-around of address arithmetic.
- PageAllocator.PageSystem.AddRange: ranges that leave a remainder; `BuddyBlocks.InitBitsRight` says what happens to those.
- PageAllocator.PageSystem.FreeOrder: an address inside a group must be the start of a live block of that order, as the source assumes of its callers.
- ed.c: repeated matching with gf set, substitution, the line store, and what goes on after `error` returns; characters are positive numbers.
- EdMachine.Ed.Compile: leaves open what a star after a bracket leaves in the buffer, since the source goes on after its error.
- vmmap.c: vmmap_find_range, vmmap_clone, vmmap_read, vmmap_write, vmmap_destroy, the bounds of user memory and the reference counts of objects.
- sched.c: interrupt levels and the switching of stacks; an interrupt may wake sleepers at any time.
- pframe.c: filling and dirtying pages, the writing back in cleaning, waiting for busy ones, page tables and the page-out daemon, save that the pages of a vnode in `Vnodes` may be busy, cleaned and freed at any time.
- PageFrames.PageCache.Free: the object outlives its page; destroying an object with its last page is modelled for vnodes only.
- shadow.c and anon.c, whose ref and put are taken by their contracts, and threads running between two steps of a daemon pass.
- api.py: formatting, truncating, unlinking and editing of directories; super block and inodes are records, not bytes.
- Simdisk.Simdisk.FreeInode: covers regular files and directories, not devices.
- virtterm.c: switching terminals and the position of the hardware cursor.
- init.c: building the table from the linker section, and the messages.
- vnode.c: mounting, special files and flushing; query_vnode is taken not to block, and the memory of a freed page frame not to be used again.
- Slab.CalcSlabSize: sizes whose one-object slab exceeds 32 bits, a slab structure larger than a page and more than 19 block sizes.
- Slab.Caches.Grow: the pages it gets must overlap no slab, which page_alloc_n promises.
- slab.c: red zones, constructor and debug fills, kmalloc.
- elf32.c: more than one AT_PHDR entry, writing the image to user memory, and the value of the entry that ends auxv, which is not written.
- Path lookup, system calls, drivers, page tables, processes and the remaining user programs, which would add easier members.
