# Models of a system programming course

The repository holds the solutions of a course on system programming and its lecture examples.
This project models the parts of it where something is to be proved, and proves it:

* **The in-memory file system** (`3/userfs.c`). Files are chains of 512-byte blocks on the heap,
  behind descriptors that hold a block and a place in it. `FlatFs` is the specification: names,
  byte sequences, positions. `FileBlocks`, `FileList`, `Descriptors`, `DescTable` and `UserFs`
  are the program, in place, with a ghost field that holds the specification's state; every call
  carries out the operation of the specification, and any history does. `Staircase`, `WriteLoop`
  and `ReadLoop` hold the arithmetic of the loops, `FlatLaws` what the specification promises,
  `Witnesses` histories that lead to the calls it excludes.
* **Concurrent protocols** as step machines: the shared-memory transfer (`SharedMem`), the futex
  lock (`Futex`), the hand-made condition variable (`CondVar`), the semaphore (`Semaphore`) and
  detached threads that free each other's stacks (`CthreadDetach`). A step is one load, store,
  compare-and-swap or kernel call of one thread; any thread may make the next one; memory is
  sequentially consistent. The number of threads and bytes is arbitrary. Looking at a lock that
  is taken changes nothing and is not a step of its own.
* **Coroutines**: the library with its scheduler (`Coroutines`), and the program that sorts files
  in coroutines and merges them (`QuickSort`, `RoundRobin`, `SortProgram`, `SortRuns`, `FileText`, `Merge`, `Buffers`).
* **The shell**: the tokenizer (`Lexing`, `TokenLists`, `Tokenizer`), lists joined by && and ||
  (`AndOr`; section 2.9.3 of the POSIX.1-2017 Shell Command Language) and pipelines over a table
  of descriptors (`Pipelines`; section 2.9.2).

`Basics` holds what several programs need, `Sums` counts threads. `dafny verify dfyconfig.toml` checks everything.

## Where the code does not do what it looks like

The model follows the code. Where that means a call must not be made, the calls that may be made
are described exactly (`FlatFs.Safe`), and a lemma says why the others are excluded:

* `ufs_write` computes the free space from the bytes a block holds, not from the descriptor's
  place (line 294). Strictly inside the full blocks it copies nothing and loops for ever:
  `FlatLaws.WriteEndsIff` has the exact condition, `Witnesses.StuckWrite` a history.
* `ufs_resize` to 0 of a file that holds bytes follows a null pointer (line 434):
  `FileBlocks.File.FindLastKept`, `Witnesses.NullShrink`. A shrink to more bytes than were written,
  which preallocated blocks allow, exposes memory that was never written or leaves a hole
  (line 447): `FlatLaws.ShrinkSoundIff`, `Witnesses.UnwrittenShrink`. What it does to the heap is
  `UserFs.FileSystem.Overcut`.
* The header promises that a shrink moves descriptors behind the new end. It also moves
  those in front of it forwards, if they stand in the last kept block:
  `FlatLaws.ShrinkKeepsPrefix`, `Witnesses.MovedForwards`.
* A short read may leave an old error code in place: `FlatLaws.StaleErrorIff`, `Witnesses.StaleError`.
* The sorting program prints over the old text of a file and does not cut off the rest:
  `FileText.ReadAgainIff` has the exact condition, `FileText.OldTextStays` a file.
* A pipeline that ends with a | which is no command itself leaves both ends of a pipe open in
  the shell: `Pipelines.EndsPiped`, `Pipelines.ExecutePipeline`, `Pipelines.TrailingPipeIsKept`.

## Model

| member | source | states |
|---|---|---|
| `UserFs.RunHistory` | 3/userfs.c:222-467 | for any history of open, write, read, close, delete and resize calls from an empty file system on, as long as no call is one that loops for ever, follows a null pointer or exposes bytes never written, the replies are those of the specification on plain byte sequences |
| `UserFs.FileSystem.Replay` | 3/userfs.c:222-467 | the same from any reachable heap: state and replies are those of `Run`, and the representation still holds |
| `UserFs.FileSystem.Call` | 3/userfs.c:222-467 | one call changes the represented state exactly as the operation of the specification does |
| `UserFs.FileSystem.Open` | 3/userfs.c:222-249 | opening finds the named file, or creates it only with the create flag, hands out the lowest free number, and reports NO_FILE otherwise; nothing else changes |
| `UserFs.FileSystem.Write` | 3/userfs.c:251-307 | after the permission and size checks the content becomes the old one with buf laid over it, and only this descriptor moves; the loop ends |
| `UserFs.FileSystem.Read` | 3/userfs.c:309-355 | what is returned is the part of the content behind the descriptor; errno is cleared except at a gap |
| `UserFs.FileSystem.Close` | 3/userfs.c:357-368 | the slot becomes free, and the file goes exactly if it is deleted and this was its last descriptor; what goes is freed with all its blocks |
| `UserFs.FileSystem.Delete` | 3/userfs.c:370-389 | the name becomes free at once; the file goes, freed with all its blocks, exactly if it is not open |
| `UserFs.FileSystem.Resize` | 3/userfs.c:391-467 | growing appends empty blocks, shrinking keeps a prefix and moves descriptors, oversize is refused with NO_MEM; asking for as many bytes as there are, or more, with no whole block behind them leaves content, chain and all descriptors in the heap alone; a shrink to more bytes than there are returns 0 all the same, with the chain cut and the descriptors moved |
| `UserFs.FileSystem.constructor` | 3/userfs.c:78-161 | the empty tables represent the empty file system |
| `UserFs.FileSystem.CreateNew` | 3/userfs.c:237-240 | a new, empty file stands in front of the list under a name that was free |
| `UserFs.FileSystem.OpenExisting` | 3/userfs.c:141-151 | a new descriptor in the lowest free slot, not yet started, that its file counts |
| `UserFs.FileSystem.DeleteFd` | 3/userfs.c:188-197 | dropping a descriptor is the specification's close |
| `UserFs.FileSystem.DeleteFile` | 3/userfs.c:374-386 | unlinking a file is the specification's delete, for the file found in the list |
| `UserFs.FileSystem.Shrink` | 3/userfs.c:425-464 | every shrink that keeps at least one byte: with no more bytes than there are it carries out the specification's resize, for the file and for every descriptor of it; with more the chain is cut, its last block counts as filled, and the descriptors are moved |
| `UserFs.FileSystem.Grow` | 3/userfs.c:417-424 | growing carries out the specification's resize and moves nobody |
| `UserFs.FileSystem.TransferKeepsView` | 3/userfs.c:264-352 | after bytes moved through one descriptor all other files and descriptors still represent what they did |
| `UserFs.FileSystem.TruncationKeepsView` | 3/userfs.c:425-464 | after a truncation no descriptor is left in a freed block: every one of them stands in the kept chain where the specification says |
| `FlatFs.ApplyKeepsWf` | 3/userfs.c:222-467 | every operation keeps: positions within the content, blocks enough for the content and at most MAX_FILE_SIZE, names distinct, no file without name and descriptor |
| `Basics.LowestFree` | 3/userfs.c:178-184 | the number of a new descriptor: free, and all smaller ones taken |
| `FlatLaws.WriteOverlays` | 3/userfs.c:284-306 | a successful write at p: content[..p], then buf, then the old rest; position p + n; every other file and descriptor as before |
| `FlatLaws.WriteThenRead` | 3/userfs.c:251-355 | what was written through one descriptor is what another one at that place reads |
| `FlatLaws.ReadIs` | 3/userfs.c:331-354 | a read returns exactly the bytes up to min(p + size, length) and moves there |
| `FlatLaws.ReadInTwo` | 3/userfs.c:331-354 | two reads in a row return what one read of both sizes returns, and end in the same place |
| `FlatLaws.StaleErrorIff` | 3/userfs.c:333-353 | an earlier error code survives a successful read if and only if the read ends at a gap: more is asked for than there is, and a block that is not full lies at the end |
| `FlatLaws.GrowKeepsContent` | 3/userfs.c:404-424 | asking for at least as many bytes as there are, with no whole block behind them, is never a shrink: every byte and every descriptor stays, and blocks are added only as far as needed |
| `FlatLaws.ShrinkKeepsPrefix` | 3/userfs.c:404-464 | asking for fewer bytes, or for just those there are when a whole block lies behind, leaves content[..newSize]; descriptors in or behind the last kept block go exactly to the new end, and go forwards if and only if they stood before it in that block; all others stay |
| `FlatLaws.ResizeSafeIff` | 3/userfs.c:404-447 | a resize leaves a file that somebody wrote if and only if it keeps a positive prefix, or asks for all there is with no whole block behind |
| `FlatLaws.OpenIs` | 3/userfs.c:222-249 | open gives out the lowest number not in use, for a descriptor at the start of the file of that name or of a new empty one; all else stays |
| `FlatLaws.EndIs` | 3/userfs.c:357-389 | close takes away one descriptor and delete one name; no file that stays changes |
| `FlatLaws.RefusedIff` | 3/userfs.c:251-415 | for each call exactly when it fails and with which error, and what it returns if it does not; a call that fails changes nothing else, one that does not fail clears the error unless it reads |
| `FlatLaws.AccessIs` | 3/userfs.c:225-319 | writing is denied exactly to files opened read-only, reading exactly to those opened write-only, and without any mode both are allowed |
| `FlatLaws.ReadBlock` | 3/userfs.c:331-354 | on a block boundary a read stops behind the last byte, but a read that is cut short goes on to the next block, if there is one |
| `FlatLaws.ShrinkSoundIff` | 3/userfs.c:441-449 | shrinking into preallocated blocks: what is left is a prefix of the content if and only if newSize is at most its length, and is a file at all if and only if no whole block is missing |
| `FileBlocks.File.FindLastKept` | 3/userfs.c:425-434 | the walk along the chain to the last block to keep ends at that block, and at the null pointer that the next line follows if and only if newSize is 0 |
| `FlatLaws.WriteEndsIff` | 3/userfs.c:276-304 | from any descriptor the write loop ends if and only if there is nothing to write or the position is not before 512 * floor(length / 512) |
| `Witnesses.StuckWrite` | 3/userfs.c:294 | a history of three calls after which writing one byte loops for ever |
| `Witnesses.NullShrink` | 3/userfs.c:425-434 | a history of two calls after which resizing to 0 has no block to keep and follows the null pointer |
| `Witnesses.UnwrittenShrink` | 3/userfs.c:447 | a history of two calls after which a shrink exposes bytes never written, and another one leaves a hole |
| `Witnesses.MovedForwards` | 3/userfs.c:454-460 | a history of four calls after which shrinking to 50 bytes moves a descriptor from position 10 to 50 |
| `Witnesses.StaleError` | 3/userfs.c:342-344 | a history of three calls after which a read that succeeds leaves NO_FILE in errno |
| `FlatLaws.GoesIff` | 3/userfs.c:357-389 | a file is gone after a call if and only if it has neither a name nor a descriptor; ids are not reused |
| `FlatLaws.OtherCallsKeep` | 3/userfs.c:222-467 | any sequence of calls that, in the state before it, all go to other names and other descriptors than a file's leaves its content and its descriptors alone, whatever names and descriptors come and go meanwhile |
| `FlatLaws.StaysUnconcerned` | 3/userfs.c:222-467 | a call for another file leads no name and no descriptor to this one: a call that does not go to it now does not go to it afterwards |
| `FlatLaws.GhostLivesOn` | 3/userfs.c:370-389 | a deleted file that is still open is not changed by any later history that does not use its old descriptors, opening and deleting the same name included; nor is the new file of that name by one that uses neither the name nor its descriptor |
| `WriteLoop.TerminatesIff` | 3/userfs.c:285-304 | the loop ends if and only if the position is not strictly inside the full blocks, or nothing is to be written |
| `WriteLoop.IterateFinishes` | 3/userfs.c:285-304 | when the loop ends, however often it ran, it has spliced all bytes in and left the descriptor behind them |
| `WriteLoop.RoomIsZeroIff` | 3/userfs.c:294-295 | an iteration copies nothing exactly in front of the last full block's end |
| `WriteLoop.StuckForever` | 3/userfs.c:285-304 | in front of the last full block's end the loop stays there for ever |
| `WriteLoop.NextKeepsFinished` | 3/userfs.c:285-304 | an iteration does not change what the loop is going to compute |
| `ReadLoop.RoundKeepsReadFrom` | 3/userfs.c:332-352 | a round of the read loop that does not return copies at least one byte, and what was read stays a contiguous part of the content |
| `ReadLoop.GapIsDone` | 3/userfs.c:342-344 | the early return at a partial block leaves errno and has read everything there is |
| `ReadLoop.ChainEndIsDone` | 3/userfs.c:334-337 | the return behind the last block has read everything there is |
| `Descriptors.FileDesc.Store` | 3/userfs.c:284-304 | the write loop on the heap runs the iterations of the model and ends |
| `Descriptors.FileDesc.Load` | 3/userfs.c:331-354 | the read loop on the heap returns the bytes and leaves the descriptor where the specification says |
| `Descriptors.FileDesc.StoreHere` | 3/userfs.c:294-303 | one memcpy with its bookkeeping, tied to the iteration on values |
| `Descriptors.FileDesc.Advance` | 3/userfs.c:286-293 | at the end of a full block the descriptor steps on, into a new block if need be |
| `FileBlocks.File.IncreaseFile` | 3/userfs.c:116-129 | one more empty block at the end; the chain stays doubly linked and the content the same |
| `FileBlocks.File.Put` | 3/userfs.c:296-303 | writing into one block behind no gap is a splice of the content, and the staircase of full, partial and empty blocks stays |
| `FileBlocks.File.Truncate` | 3/userfs.c:425-449 | for every positive size: the chain is cut behind the last kept block, the rest is freed once each, the last fill is set; the content is the prefix if there were that many bytes |
| `FileBlocks.File.FreeFrom` | 3/userfs.c:433-440 | every block from this one on is freed, once, and its link is read before: nothing is known of a freed block, and no other block is touched |
| `FileBlocks.File.Delete` | 3/userfs.c:93-103 | all blocks of the file are freed, each once, then the file, of which nothing is known afterwards |
| `Descriptors.FileDesc.Release` | 3/userfs.c:188-197 | the reference is given up, which frees a deleted file with its blocks exactly if it was the last one; then the descriptor is freed |
| `FileBlocks.File.OldSize` | 3/userfs.c:404-410 | the size that resize compares with is the length of the content or the start of the last allocated block, whichever is more |
| `Staircase.PutIsSplice` | 3/userfs.c:296-303 | overlaying one block is a splice of the whole content |
| `Staircase.CutIsPrefix` | 3/userfs.c:411-449 | cutting whole blocks and setting the last fill leaves exactly a prefix of the content |
| `FileList.FileList.InsertFile` | 3/userfs.c:105-114 | the file stands first; the list stays doubly linked without repetition |
| `FileList.FileList.UnlinkFile` | 3/userfs.c:80-91 | exactly this file leaves the list, the others keep their order |
| `FileList.FileList.Search` | 3/userfs.c:230-237 | the file of that name, or none has it |
| `DescTable.DescTable.InsertFd` | 3/userfs.c:163-186 | the lowest free slot is taken, across doublings of the table, and no open number changes |
| `DescTable.DescTable.Double` | 3/userfs.c:165-177 | a full table is replaced by a larger one with the same descriptors in the same slots |
| `DescTable.DescTable.GetFd` | 3/userfs.c:210-220 | the descriptor of that number, or null for any number that is not open |
| `DescTable.DescTable.MoveToEnd` | 3/userfs.c:450-464 | every descriptor of the file in or behind its last block goes to its end, no other one moves |
| `DescTable.AllTakenCount` | 3/userfs.c:165-184 | a table without a free slot holds as many descriptors as slots, so the search for one succeeds |
| `SharedMem.TransferIsSafe` | lecture_examples/7_ipc/3_mem_sort.c:31-85 | for all message lengths and interleavings: never both in memcpy, what arrived is a prefix of what was sent, the size arrives before it is used, and in the end everything has arrived and the flags are as at first |
| `SharedMem.FairRunFinishes` | lecture_examples/7_ipc/3_mem_sort.c:31-85 | if both processes keep getting turns, both finish with everything transferred, within a number of rounds computed from the lengths |
| `SharedMem.NeverStuck` | lecture_examples/7_ipc/3_mem_sort.c:40-84 | until both are done one of them can make a step that is not waiting |
| `SharedMem.StepKeepsInv` | lecture_examples/7_ipc/3_mem_sort.c:40-84 | the invariant that says whose turn it is, over every single load, store and byte copied |
| `SharedMem.StepCounts` | lecture_examples/7_ipc/3_mem_sort.c:40-84 | each step that is not waiting brings the end exactly one step nearer |
| `SharedMem.ReaderLenIs` | lecture_examples/7_ipc/3_mem_sort.c:132-136 | the length the reader computes from the first message is the one the writer uses for the second |
| `SharedMem.Encode` | lecture_examples/7_ipc/3_mem_sort.c:104-105 | the four bytes of a size decode to that size |
| `SharedMem.InitHolds` | lecture_examples/7_ipc/3_mem_sort.c:119-123 | the state before the fork satisfies the invariant |
| `Futex.CounterIsExact` | lecture_examples/6_threads/8_futex.c:42-66 | n threads with k iterations each: every run of enabled steps ends, and then the counter is exactly n * k |
| `Futex.AlwaysExclusive` | lecture_examples/6_threads/8_futex.c:24-52 | in every run, spurious wake-ups included, at most one thread is between lock and unlock, and no increment is lost |
| `Futex.NeverStuck` | lecture_examples/6_threads/8_futex.c:24-36 | as long as some thread is not done some thread can go on: no sleeper is stranded |
| `Futex.StepKeepsInv` | lecture_examples/6_threads/8_futex.c:24-52 | the futex word says whether the section is taken; while it is free and somebody sleeps, somebody awake is about to notice |
| `Futex.StepGoesDown` | lecture_examples/6_threads/8_futex.c:24-52 | every step goes down in a lexicographic order, so no run is infinite |
| `Futex.Exclusion` | lecture_examples/6_threads/8_futex.c:27-34 | two threads are never in the section together |
| `CondVar.AlwaysConsumedOnce` | lecture_examples/6_threads/14_condvar.c:13-56 | in every run with any number of waiters each published event is consumed once and by a waiter; while it is not, somebody is bound to consume it; the count that the signaller reads is exact |
| `CondVar.EveryCallCounts` | lecture_examples/6_threads/14_condvar.c:13-45 | in every run each condvar_wait has consumed one event or still waits, and each condvar_signal that found a waiter has published one event or is about to |
| `CondVar.SignalReturns` | lecture_examples/6_threads/14_condvar.c:13-30 | unless it spins on an event that nobody has consumed, each step takes condvar_signal nearer to its return, which is with the mutex and without a leftover event |
| `CondVar.WaiterReleases` | lecture_examples/6_threads/14_condvar.c:33-46 | a waiter that holds the mutex can go on, and each step takes it nearer to giving the mutex up |
| `CondVar.SpinEnds` | lecture_examples/6_threads/14_condvar.c:23-29 | while the signaller spins some waiter can go on, and whichever does brings the consumption one step nearer; newcomers do not delay it |
| `CondVar.FairRunConsumes` | lecture_examples/6_threads/14_condvar.c:23-46 | if the signaller and all waiters keep getting turns, a published event is consumed within four rounds |
| `CondVar.CountIsExact` | lecture_examples/6_threads/14_condvar.c:36-46 | while the signaller holds the mutex wait_count counts exactly the waiters in front of it, because a consumer decrements before it unlocks |
| `CondVar.StepKeepsInv` | lecture_examples/6_threads/14_condvar.c:13-56 | the invariant over every interleaving |
| `CondVar.StartHolds` | lecture_examples/6_threads/14_condvar.c:49-56 | condvar_create establishes it |
| `Semaphore.AlwaysBalanced` | lecture_examples/7_ipc/10_sem_mutex.h:9-26 | in every run the counter is its initial value plus puts minus gets and never negative, and while somebody sleeps there are at most as many units as threads on their way to them |
| `Semaphore.EveryCallCounts` | lecture_examples/7_ipc/10_sem_mutex.h:9-26 | in every run each semaphore_get has taken one unit or is still on its way to one, and each semaphore_put has added one or is about to |
| `Semaphore.QuietMeansServed` | lecture_examples/7_ipc/10_sem_mutex.h:9-26 | when no started call can go on, every thread is idle or sleeps with the counter at 0: the mutex is free and no wake-up was lost |
| `Semaphore.ComesToRest` | lecture_examples/7_ipc/10_sem_mutex.h:9-26 | without new calls the threads come to rest, whoever goes next: the number of steps is bounded by where they are, there is a step to take until then, and then nobody sleeps on a unit |
| `Semaphore.StepGoesDown` | lecture_examples/7_ipc/10_sem_mutex.h:9-26 | no step of a started call is spent waiting |
| `Semaphore.StepKeepsInv` | lecture_examples/7_ipc/10_sem_mutex.h:9-26 | the invariant over every interleaving, with spurious wake-ups |
| `CthreadDetach.AlwaysFreedOnce` | lecture_examples/6_threads/12_cthread_detach.c:45-100 | in every run a thread is destroyed at most once, a stack freed at most once and only after the kernel zeroed its tid, and the list holds no freed stack |
| `CthreadDetach.AllDestroyedOnce` | lecture_examples/6_threads/12_cthread_detach.c:75-100 | every run ends; then each thread was destroyed exactly once, and each stack is freed or still listed |
| `CthreadDetach.NeverStuck` | lecture_examples/6_threads/12_cthread_detach.c:13-23 | the two nested spin locks cannot deadlock |
| `CthreadDetach.NoUseAfterFree` | lecture_examples/6_threads/12_cthread_detach.c:50-61 | no list node is read or written after it was freed, neither by the owner of the list nor by the kernel |
| `CthreadDetach.SweepIs` | lecture_examples/6_threads/12_cthread_detach.c:50-58 | a step of the sweep frees the head of the list exactly if its thread is gone, and ends the sweep otherwise |
| `CthreadDetach.ListIs` | lecture_examples/6_threads/12_cthread_detach.c:48-61 | the sweep begins with the whole list, the own stack is put in front of what it leaves, and nothing else frees a stack or changes the list |
| `CthreadDetach.StepKeepsInv` | lecture_examples/6_threads/12_cthread_detach.c:45-100 | the invariant of locks, flags and list over every interleaving of runners, detachers and the kernel |
| `CthreadDetach.StepGoesDown` | lecture_examples/6_threads/12_cthread_detach.c:45-100 | a step that is not spinning brings the end nearer |
| `CthreadDetach.FreeKeepsList` | lecture_examples/6_threads/12_cthread_detach.c:51-59 | freeing the head of the list leaves a list without freed stacks |
| `Coroutines.Library.WaitForAll` | lecture_examples/4_signals/12_libcoro.c:122-137 | a loop over coro_sched_wait ends; what it was handed are exactly the coroutines ever created, each once, finished, with the status of its own script; none was run when finished, and coro_this_ptr always was the one running |
| `Coroutines.Library.SchedWait` | lecture_examples/4_signals/12_libcoro.c:122-137 | returns one of the coroutines created, finished, with its status, or NULL only if none are left; only unfinished ones ran meanwhile, each with coro_this_ptr set to it |
| `Coroutines.Library.RunUntilBack` | lecture_examples/4_signals/12_libcoro.c:94-113 | control starts with the first coroutine, stays or goes to the next in the list, and comes back when one has returned or the last one yields; all that run are unfinished and are coro_this_ptr; and unless one has returned, all that were in the list have run |
| `Coroutines.Library.Step` | lecture_examples/4_signals/12_libcoro.c:94-113 | one step of the running coroutine: a return goes to the scheduler, a creation stays, a yield goes to the successor in the list or from the last one to the scheduler |
| `Coroutines.Library.Return` | lecture_examples/4_signals/12_libcoro.c:166-174 | a coroutine returns only while the scheduler waits, so "no place to return" is unreachable |
| `Coroutines.Library.Create` | lecture_examples/4_signals/12_libcoro.c:217-247 | the new coroutine is first in the list and coro_this_ptr is as before |
| `Coroutines.Library.YieldFrom` | lecture_examples/4_signals/12_libcoro.c:94-113 | the context that is left is saved, control goes to the successor or from the last one to the scheduler, and what its own saved local variable says makes it coro_this_ptr |
| `Coroutines.Library.YieldToFirst` | lecture_examples/4_signals/12_libcoro.c:94-102 | the scheduler's context is saved and the first coroutine of the list becomes coro_this_ptr from its own context |
| `Coroutines.Library.NewContext` | lecture_examples/4_signals/12_libcoro.c:151-225 | the new context remembers its coroutine, and coro_this_ptr is as before |
| `Coroutines.CoroList.Add` | lecture_examples/4_signals/12_libcoro.c:51-60 | insertion at the front of the doubly linked list |
| `Coroutines.CoroList.Delete` | lecture_examples/4_signals/12_libcoro.c:62-73 | exactly this coroutine leaves the list |
| `Coroutines.CoroList.FindFinished` | lecture_examples/4_signals/12_libcoro.c:126-131 | the first finished coroutine of the list, or none is finished |
| `Coroutines.Library.HandOut` | lecture_examples/4_signals/12_libcoro.c:127-129 | exactly this coroutine leaves the list, finished and with its status, and no finished one stays |
| `QuickSort.Part` | 1/main.c:142-168 | for any random pivot: a rearrangement of the range with everything up to p at most a[p] and everything behind it larger |
| `QuickSort.QuickSort` | 1/main.c:170-180 | without interleaving the range is sorted and a rearrangement, nothing outside changes |
| `SortProgram.MainFindsSorted` | 1/main.c:182-203 | for any pivots, time slices and interleaving: when control is back in main every coroutine has ended, and its buffer and what it has written are its input, sorted |
| `FileText.FileIsSortedIff` | 1/main.c:194-201 | what the file holds then: the sorted numbers from its start, and nothing behind them if and only if the old text was not longer than its numbers printed with single spaces |
| `FileText.ReadAgainIff` | 1/main.c:186-201 | for the texts of any files: after any run the file, read again, holds its numbers sorted followed by those that can be read from the old text behind them, so it holds exactly the sorted numbers if and only if no number follows there |
| `FileText.PrintedIsReadBack` | 1/main.c:186-201 | the numbers printed are read back, whatever text follows |
| `FileText.NumberIsReadBack` | 1/main.c:187-196 | any number printed with %d is read back with %d, and what follows it is left |
| `FileText.SignedNumber` | 1/main.c:187 | numbers are decimal and may have either sign |
| `FileText.OldTextStays` | 1/main.c:186-244 | after any run a file that held  007 3  holds  3 7 3  and is read again as three numbers |
| `SortRuns.NeverStuck` | 1/main.c:182-203 | as long as control is not back in main the running coroutine can work, call swap or come to its end |
| `SortRuns.RunIsShort` | 1/main.c:83-203 | whatever the pivots and the time slices, no run has more steps, calls of swap included, than 9 per number and 9 per file, and a run can be continued exactly until control is back in main |
| `SortRuns.TurnComesInRun` | 1/main.c:83-140 | in any stretch of a run of the program an unfinished coroutine is running again before control has passed on more often than there are unfinished ones ahead of it, and once more |
| `SortRuns.SomePartition` | 1/main.c:142-168 | every range has a partition, so a coroutine is never without a next step |
| `SortProgram.WorkKeepsOk` | 1/main.c:170-203 | losing control in the middle of the recursion does no harm: the buffer is sorted but for the ranges still pending |
| `SortProgram.PartitionKeepsOrder` | 1/main.c:170-180 | partitioning one pending range keeps the order between all others |
| `SortProgram.WorkGoesDown` | 1/main.c:170-203 | no choice of pivots makes a coroutine run for ever, although every call of quick_sort that ends adds a call of swap |
| `SortProgram.StepGoesDown` | 1/main.c:83-203 | every step of the program, a switch of control too, brings its end nearer |
| `SortProgram.StepKeepsInv` | 1/main.c:85-203 | whatever the running coroutine does or however control passes on, every coroutine still holds its input, as far sorted as its pending ranges say, and control is in main only when all have ended |
| `SortProgram.ControlGoesRound` | 1/main.c:85-140 | control passes between coroutines only to the next unfinished one in the circle |
| `RoundRobin.TurnComes` | 1/main.c:83-140 | an unfinished coroutine runs after at most as many switches as there are unfinished ones ahead of it, and one more |
| `RoundRobin.AheadAreOthers` | 1/main.c:83-140 | and that is at most the number of other unfinished coroutines |
| `RoundRobin.OneLessAhead` | 1/main.c:83-140 | every switch of control leaves one fewer ahead |
| `RoundRobin.NextIsNearest` | 1/main.c:90-104 | the two loops find the nearest unfinished coroutine around the circle, and main only if there is none |
| `RoundRobin.FindNext` | 1/main.c:116-139 | the loops compute that successor |
| `RoundRobin.Swap` | 1/main.c:107-140 | control passes on only when the slice is over and somebody else is unfinished; only the own counter changes |
| `RoundRobin.Terminate` | 1/main.c:85-105 | the coroutine is finished and linked to its successor, or to main after the last one |
| `Merge.MergeFiles` | 1/main.c:205-228 | everything is written, and in order if the buffers were sorted, values of INT_MAX included |
| `Merge.FindMin` | 1/main.c:208-220 | the last buffer whose first element is smallest, and none only if all are empty |
| `Merge.MergeAfterRun` | 1/main.c:259-270 | after any run of the coroutines what main writes is all inputs together, sorted |
| `Buffers.InsertBuffer` | 1/main.c:74-81 | appends one element, across doublings |
| `Buffers.DoubleBuffer` | 1/main.c:62-72 | twice the length, the same contents |
| `Tokenizer.Reader.ReadPrinted` | 2/shell.c:508-591 | printed lines of words and operators are exactly the lists at the line breaks, across buffer doublings; they are executed as they are if and only if no line is empty and no token begins with # |
| `Tokenizer.Reader.ReadAll` | 2/shell.c:519-589 | the loop with its flags, list and buffer computes the state machine |
| `Tokenizer.Reader.Take` | 2/shell.c:520-588 | one character through the flags, the list and the buffer |
| `Tokenizer.Reader.EndLine` | 2/shell.c:573-581 | at a line break comments are stripped from the list, what is left is executed unless it is empty, and the list starts again |
| `TokenLists.HeadList.StripComment` | 2/shell.c:158-179 | the list is cut in front of the first token that begins with # |
| `Lexing.ExecutedIff` | 2/shell.c:574-577 | lines are executed as they stand if and only if none is empty and no token begins with # |
| `Lexing.LinesAreReadBack` | 2/shell.c:519-589 | printing and reading is the identity on any sequence of printable lines, before comments are stripped |
| `Lexing.LineIsReadBack` | 2/shell.c:519-589 | the same for one line, from any state between two lines |
| `Lexing.TokenIsReadBack` | 2/shell.c:555-584 | a gap makes an operator FIRST, no gap behind an operator makes it SECOND, words stay whole |
| `Lexing.WordIsReadBack` | 2/shell.c:520-554 | escapes and quotes bring back any word |
| `Lexing.CharIsReadBack` | 2/shell.c:520-554 | and any single character, the line break in double quotes |
| `Lexing.SpellingIsRead` | 2/shell.c:520-554 | a word spelled in any mixture of plain characters, backslashes, single and double quotes is read as what the spelling means: quotes vanish, single quotes keep everything, a backslash keeps a special character, stays in front of an ordinary one and swallows a line break |
| `Lexing.EscapeIs` | 2/shell.c:525-533 | what a backslash does, in double quotes and without |
| `Lexing.SeparatorIs` | 2/shell.c:555-584 | what a space, a line break and each of the four symbols do outside quotes |
| `Lexing.StrippedWords` | 2/shell.c:158-179 | what is left of a line are the words in front of the first one that begins with # |
| `TokenLists.HeadList.Insert` | 2/shell.c:80-101 | a token is appended unless the buffer is empty, and the buffer is emptied |
| `AndOr.ExecuteLogic` | 2/shell.c:418-447 | on every list of tokens: runs what the left-associative evaluator with equal precedence runs, in that order, and returns its status, for any status oracle that depends on the history; segment k runs exactly if it is the first, or stands behind the AND operator and what was run last succeeded, or behind the OR operator and it failed |
| `AndOr.Explained` | 2/shell.c:418-447 | the evaluator on trees runs exactly the segments that this rule selects, and its status is that of the last one run |
| `AndOr.OneKindOnly` | 2/shell.c:428-442 | a list with AND only runs up to the first failure, one with OR only up to the first success, and returns the status of the last segment run |
| `AndOr.SkipParts` | 2/shell.c:428-442 | the inner loops pass over exactly the parts that short-circuiting excludes |
| `AndOr.SplitLogic` | 2/shell.c:219-237 | the list is cut in place in front of the first AND or OR operator |
| `AndOr.FlattenParse` | 2/shell.c:199-237 | cutting loses and reorders no token; no part is empty or holds an operator behind its first token, and an operator follows each but the last |
| `AndOr.ParseFlatten` | 2/shell.c:219-237 | of a well-formed list exactly the segments and operators are found |
| `Pipelines.ExecutePipeline` | 2/shell.c:373-416 | for any number of stages: child i runs the command of stage i with its input from pipe i - 1, its output on pipe i and otherwise the inherited descriptors; the shell has its descriptors as before unless the number of pipe symbols at the end of the list is odd, or even and not zero if there is nothing else in it; the status is the last child's in whatever order they end |
| `Pipelines.OneReaderOneWriter` | 2/shell.c:373-409 | each pipe of a well-formed pipeline has exactly one reader and one writer among all children |
| `Pipelines.StartStage` | 2/shell.c:384-405 | one round of the loop: pipe, fork, the words of the command collected from the list as it was cut, rotate |
| `Pipelines.ChildHas` | 2/shell.c:263-283 | what the child is left with after its dup2 and close calls |
| `Pipelines.ChildInherits` | 2/shell.c:263-283 | a child has the numbers that the shell had and no other; all but 0 and 1 are as they were, 0 is the pipe before or else the shell's, and 1 the pipe behind or else the shell's |
| `Pipelines.ParentHas` | 2/shell.c:285-297 | what the shell is left with after the rotation |
| `Pipelines.WaitForAll` | 2/shell.c:410-415 | only the report about the last child counts, in any order; a killed child counts as 1 |
| `Pipelines.SplitPipeline` | 2/shell.c:247-261 | the list is cut in place in front of the first pipe symbol: what is left at its head is the command and ends there |
| `TokenLists.ReadTokens` | 2/shell.c:145-156 | walking down a list collects exactly its tokens |
| `Pipelines.KeptIff` | 2/shell.c:285-297 | the shell has its descriptors as they were if and only if it holds no pipe any more |
| `Pipelines.TrailingPipeIsKept` | 2/shell.c:373-409 | after  a  and a pipe symbol the shell still holds both ends of a pipe; after  a  and two of them it does not, since the second one is a command |
| `Pipelines.LastPipedIff` | 2/shell.c:247-261 | which stage is the last, and whether a pipe is opened behind it, follows from the number of pipe symbols that end the list |
| `Pipelines.JoinedStages` | 2/shell.c:247-261 | cutting loses and reorders no token, every stage but the last is followed by a pipe symbol, and no command is empty or holds one behind its first token |
| `Pipelines.StagesJoined` | 2/shell.c:247-261 | of a well-formed pipeline exactly the commands are found |

## Left out

- UserFs.FileSystem.Write: requires `FlatFs.Safe`, which excludes the calls that never return, because a method has to end; `FlatLaws.WriteEndsIff` shows that it excludes no others.
- UserFs.FileSystem.Resize: requires `FlatFs.KeepsBlock`, which excludes just the shrinks that follow a null pointer (`FileBlocks.File.FindLastKept`). After a shrink to more bytes than the file has, the file is no longer a sequence of bytes that somebody wrote (`FlatLaws.ShrinkSoundIff`); for it the contract states what the heap then is (`UserFs.FileSystem.Overcut`), not a state of the specification.
- UserFs.FileSystem.Call, UserFs.FileSystem.Replay, UserFs.RunHistory: require `FlatFs.Safe` of every call, in the state in which it is made, so a history ends in front of such a shrink.
- FileBlocks.File.Put: block memory is a field that holds a sequence of 512 bytes, not a separate array, so two blocks cannot share memory; it starts out arbitrary, as malloc leaves it.
- FileBlocks.File.FreeFrom: freeing makes the fields unknown and sets a mark, which must not be set before. The memory is not handed out again.
- Futex.CounterIsExact: the kernel does not wake a sleeper for no reason for ever; safety is proved with such wake-ups too. The `start` flag, which only delays all threads, is not modelled.
- Coroutines.Library.Create: signals, alternative stacks and setjmp are not modelled; a saved context is the rest of a finite script and one local variable, and is used up by the jump to it. Coroutines are created before the first wait or by coroutines.
- CthreadDetach.AlwaysFreedOnce: each thread is detached once; `cthread_join` and `cthread_exit` are not modelled.
- SortProgram.MainFindsSorted: clocks and stacks are not modelled, any call of swap may find its time slice over.
- FileText.ReadAgainIff: each file is given once, and its numbers fit an `int`.
- Merge.MergeFiles: drops the first element of a sequence where the program moves a buffer's pointer.
- Tokenizer.Reader.EndLine: `execute` itself is not modelled, only which lists it is given.
- Lexing.LinesAreReadBack: zero bytes in the input, which would end a C string early, are ordinary characters.
- AndOr.RunPipeline: the status of a pipeline is an oracle of what was run so far; `Pipelines` models the descriptors and the status of one pipeline.
- Pipelines.ExecutePipeline: the shell has its descriptors 0 and 1 open; fork, pipe and dup2 do not fail, and wait reports each child once.
- Memory that runs out, and wrap-around of `size_t` and `int`; the number of bytes sent by a sorting worker fits an `int`.
- The reordering of loads and stores by compiler and hardware in the concurrent examples.
- `check_block`, `cd`, `execvp` and printing in the shell, and redirections, which `open_files` takes out of a child's list before its words become arguments.
- `4/thread_pool.c`, whose functions are empty, and the lecture examples that are plumbing around system calls.
