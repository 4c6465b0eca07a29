# Verified models of a coursework collection

Dafny models of the components of this repository that hold a hard property, with proofs that
verify with `dafny verify dfyconfig.toml` (Dafny 4.11). Each component is a set of modules of its
own; they share one predicate (`Sequences`).

- **TINY compiler** (`CInt`, `TinySyntax`, `TinyMachine`, `TinySymbols`, `TinyCode`, `TinyCorrect`,
  `TinyEmit`, `TinyTheorem`): the symbol table, the code generator with its backpatching, the code
  file, the loader and the TM machine, each as it works step by step, and a semantics of TINY with
  division by zero, missing input and programs that never end. The theorems say that the machine
  shows every behaviour of the program and no other.
- **xv6 write-ahead log** (`WalDisk`, `WalRecovery`, `WalCache`, `WalLog`, `WalProtocol`,
  `WalLimits`, `WalOutside`): the disk as blocks, the buffer cache and the log as objects that issue block writes
  one by one, crashes between any two of them, recovery that may crash too, and all interleavings of
  operations, of the guard and the append of `log_write`, and of readers that keep buffers; for
  which sizes of the log each promise holds; and what calls from outside every operation do.
- **Semaphores and the readers/writer lock** (`WaitQueue`, `RwLock`, `RwLockLost`): the circular
  queue with its scan, the lock as steps of any number of threads, what becomes of a thread that the
  queue refuses, and of one that is woken up from elsewhere.
- **File blocks** (`FileContents`, `FileBlocks`, `FileCalls`): bitmap allocation, the map through
  direct, single, double and triple indirection, truncation, reading and writing a file as one array
  of bytes, and what it holds after any calls.
- **Allocator** (`Umalloc`): the circular free list in headers in memory, and the blocks it stands
  for.
- **Maze robot** (`Lsrb`): the log of a left-first drive, and the stack that makes the direct route
  of it.
- **Graph algorithms** (`Dijkstra`, `EquivalenceClasses`) and the **regular expression matcher**
  (`Grep`).
- **B+tree on pages** (`BptPage`, `BptTree`, `BptSplit`, `BptMerge`, `BptRoot`, `BptLeaf`,
  `BptShare`, `BptOrder`, `Bpt`) with its **free pages** (`DiskSpace`) and the **buffer pool**
  (`LruList`, `BufferPool`, `PagedTables`, `PageCalls`, `PagedStore`, `PooledTable`): what holds of
  each page and its neighbours, the changes of the tree on values, the table whose methods make these
  changes page by page, the pool between pages and disk with its list of recent uses, the free list
  over both, what the pages of a table are to those who use them, and the table over the pool.
- **Stride scheduler** (`MinHeap`, `Stride`, `StrideRuns`, `StrideShares`, `StrideLimits`,
  `StrideFaults`, `Levels`, `Scheduler`): the array heap, the schedule as steps of any number of processors in
  any order, what its runs keep, when they do not, when it can divide by zero, the levels of the
  feedback queues, and the code between two switches as such steps.
- **Page tables** (`PageFrames`, `AddressSpaces`): physical pages with the one who has each of
  them, and the calls that make, grow, shrink, copy and free address spaces, also without memory.
- **LC-2K** (`Lc2k`, `Lc2kAssembler`, `Lc2kTheorem`): machine words, the assembler's two passes, the
  simulator's loop, and a meaning of programs with labels.

## How the models are built

State that the source updates in place is a class with those fields; its methods are proved
against functions on values, and the properties are lemmas about these functions, over every input
or every run. A step that ends in a kernel panic, an undefined value or an endless prompt is a
result of its own. Integers are unbounded except where a width decides a branch. Where a property
does not hold of the code, the code is kept and the exact condition is proved:

- `log_write` tests for room before it looks for the block, and against `log.size - 1`; `mkfs`
  gives the log LOGSIZE blocks. So an operation within its budget can meet the panic. It cannot if
  and only if the log has more than LOGSIZE blocks (`WalLimits.PanicFreeExactly`).
- It makes that test before it takes the lock, so two calls may pass it and then both append. The
  log region has a block for each block that is logged if and only if it has more than LOGSIZE, or
  nothing can be logged at all (`FitsExactly`). With as many blocks as buffers, which is what `mkfs`
  makes, the commit then panics before it writes; with fewer it writes over the block behind the
  log, and a crash at that time loses it (`OverrunLosesBlock`, `AllOrNothingExactly`).
- A commit needs a buffer that is neither dirty nor held, and reads are not only made inside
  operations. `EndMeetsPanic` and `CommitPanicsExactly` say when it meets "bget: no buffers"; with
  NBUF equal to LOGSIZE no size of the log avoids both panics (`NoSizeIsSafe`).
- `wq_enqueue` starts its scan for a duplicate at `head + 1` without wrapping. `ScanExact` says
  when it misses one and when it refuses a newcomer. The word behind the array is `head` itself, so
  with `head` at the last place, and somebody queued, the thread of that number is refused; as is
  anybody when the queue is full. `xem_wait` ignores the refusal, and the thread sleeps for ever.
  The lock keeps its promises exactly on the runs in which that does not happen
  (`RwLock.StepKeepsInv`, `RwLockLost.RunKeepsInv`), and it happens on none with few users
  (`FewUsersTaken`, `StuckExactly`).
- `sleep` in `xem_wait` is on the thread's own slot, where an exiting child and `kill` wake it as
  well, and `xem_wait` does not look again. Two such wake-ups let two writers in
  (`RwLockLost.TwoWriters`); `ForeignWakeup` says exactly when one does harm, and `WakeupsKeepInv`
  in which runs none does. There the lock keeps its promises (`ExclusionWithWakeups`).
- `dijkstra` leaves `pos` unset when no unchecked vertex is below INF, and `check[s]` is never
  cleared. `Globals.Run` succeeds if and only if neither happens.
- `stepTM` and the loader let an address equal to the size of an array through; such an access is
  the result UNDEFINED, and generated code never makes it.
- Separators of the B+tree pass through `int`. They survive if and only if they have 32 bits
  (`Bpt.SeparatorKept`), and beyond that a split misleads every later search for the left half
  (`Bpt.WideKeysMislead`); keys that are inserted have 32 bits, others can be looked for.
- `get_LRU_index` never returns if all buffers are pinned. `LruList.SearchEndsExactly` says when it
  does; the calls of the pool say so as a result, -1.
- `buffer_alloc_page` changes the header in its buffer without a pin and may then give up that very
  buffer. If the header is dirty and the free list empty, the new numbers reach the disk before the
  pages they speak of (`PagedTables.LosesHeader`). `BufferAllocPage` says exactly when; a pinned
  header is safe (`PinnedNotLost`), and insertions keep it pinned.
- `heapinsert` scans slot 0, which is not part of the heap and holds index 0, and leaves out the
  last slot. So a process can be in the heap twice, and process 0 only alone; `HeapInsert` says so
  exactly, and the bounds of the schedule hold all the same. Fair shares are for processes that are
  in the heap once and are taken back into it.
- The ticks of a process are set to zero by wake-ups by the clock, `kill`, `exit` and `exec`, also
  while one of its threads is run; the scheduler then measures less than nothing, and virtual time
  goes back (`StrideLimits.ClockTakesTimeBack`). `Stride.CountedExactly`, `StepKeeps` and
  `StrideLimits.SetBackExactly` say exactly which events do that; the theorems about runs are for
  runs without them.
- Each processor runs the scheduler over the same heap and the same `mlfqpv`. While one of them runs
  a process from the heap, the others let the queues get ahead, or give other processes tick after
  tick (`StrideLimits.DriftsApart`). That virtual time does not go back holds for any number of
  processors; fixed bounds for pass values and shares exist if and only if there is one
  (`FairExactly`, `NearExactly`), and for more they hold in the runs that `StrideRuns.RunNear` says.
- `readi` maps a hole to a block, which it logs, and it is called outside operations: `log_write`
  then panics with "log_write outside of trans", unless some operation is under way, which has not
  reserved for it. `WalOutside` says when it is the one and when the other, and exactly when such a
  call takes room that others have been promised (`OutsideKeepsExactly`).
- `simulate.c` never sets `pc`; the theorems are for every value that it may start with.
- `scheduler` divides by `mainth->tickets` when a process is back from the heap, and nothing takes an
  entry out of the heap when a process exits. So the old entry may be found for a new process in
  the slot, which has no tickets (`StrideFaults.StaleEntryFaults`). The child of a process whose
  thread has called `exec` may be run in the old slot just so (`ForkFaults`). `FaultsExactly`,
  `BecomesStale` and `CleanNeverFaults` say exactly when that can happen.

## Model

| member | source | states |
|---|---|---|
| TinyTheorem.Preservation | HYU-Compiter-Design/1_Scanner/cgen.c:25-212 | for every program, input and amount of fuel, within the memory bounds: the loaded code, run on the machine, does what the program does. It halts with the same output, unread input and variables in their locations, stops at the same division by zero or missing input, or runs at least as long as the program has been followed |
| TinyTheorem.Reflection | HYU-Compiter-Design/1_Scanner/tm.c:307-397 | the other way round: however a run of the machine ends, the program ends like that, with the same output, input and variables |
| TinyTheorem.DivergesAlike | HYU-Compiter-Design/1_Scanner/cgen.c:57-69 | the machine runs for ever on an input exactly if the program does |
| TinyTheorem.NeverFaults | HYU-Compiter-Design/1_Scanner/tm.c:307-397 | generated code never ends in an instruction or data memory error, nor next to an array, on any input after any number of steps |
| TinyTheorem.RunExplained | HYU-Compiter-Design/1_Scanner/tm.c:400-553 | what each result of a run says about the program's own meaning |
| TinyTheorem.CompileAndRun | HYU-Compiter-Design/1_Scanner/cgen.c:196-212 | analysis, generation, loading and running by the modelled components one after the other: loading succeeds exactly if the code is no longer than instruction memory, and the outcome is explained by the program |
| TinyTheorem.ImageLoads | HYU-Compiter-Design/1_Scanner/tm.c:221-303 | a generated file loads exactly if the code fits in instruction memory, and then memory holds the code in place |
| TinySyntax.OverExactly | HYU-Compiter-Design/1_Scanner/cgen.c:139-141 | the value of a division in a program is the quotient of C, with what is left smaller than the divisor and of the sign of the dividend; none exactly if the divisor is zero |
| TinyCorrect.SimExp | HYU-Compiter-Design/1_Scanner/cgen.c:98-166 | code of an expression leaves its value in ac, or stops where the expression divides by zero, with variables, output and all temporaries in use by the context unchanged |
| TinyCorrect.SimStmts | HYU-Compiter-Design/1_Scanner/cgen.c:171-185 | code of a statement list simulates the list from any state that agrees with the store, wherever in memory the code is |
| TinyCorrect.SimIf | HYU-Compiter-Design/1_Scanner/cgen.c:31-55 | the two jumps of an if lead to the right branch and past the other |
| TinyCorrect.SimRepeat | HYU-Compiter-Design/1_Scanner/cgen.c:57-69 | the backward jump of a repeat is taken exactly while its condition is false |
| TinyCorrect.SimAssign | HYU-Compiter-Design/1_Scanner/cgen.c:71-79 | an assignment stores at the location of its variable and at no other variable's |
| TinyCorrect.SimRead | HYU-Compiter-Design/1_Scanner/cgen.c:81-85 | a read consumes one input value and stores it, or waits when there is none |
| TinyCorrect.SimWrite | HYU-Compiter-Design/1_Scanner/cgen.c:86-91 | a write appends the value to the output |
| TinySyntax.FuelStmts | HYU-Compiter-Design/1_Scanner/cgen.c:171-185 | a run of a program that is over with some fuel has the same end with any more fuel |
| TinyCode.StmtsAcceptable | HYU-Compiter-Design/1_Scanner/tm.c:221-303 | all generated instructions pass the loader's checks |
| TinyEmit.CodeGenerator.CodeGen | HYU-Compiter-Design/1_Scanner/cgen.c:196-212 | the emission order of the file: prelude, body with its skipped and patched slots, HALT |
| TinyEmit.CodeGenerator.Emit | HYU-Compiter-Design/1_Scanner/code.c:34-54 | one line for the present location; the cursor and its highest value move on |
| TinyEmit.CodeGenerator.EmitRMAbs | HYU-Compiter-Design/1_Scanner/code.c:90-97 | an absolute target becomes a distance from the following instruction |
| TinyEmit.CodeGenerator.EmitSkip | HYU-Compiter-Design/1_Scanner/code.c:60-65 | reserves locations without emitting; answers the first |
| TinyEmit.CodeGenerator.EmitBackup | HYU-Compiter-Design/1_Scanner/code.c:70-73 | the cursor goes back to a skipped location |
| TinyEmit.CodeGenerator.EmitRestore | HYU-Compiter-Design/1_Scanner/code.c:79-80 | the cursor returns to the highest location |
| TinyEmit.CodeGenerator.Backpatch | HYU-Compiter-Design/1_Scanner/cgen.c:31-69 | a skipped location is filled with a jump to the present one and the cursor is where it was |
| TinyEmit.CodeGenerator.GenExp | HYU-Compiter-Design/1_Scanner/cgen.c:98-166 | emits the code of an expression and restores tmpOffset |
| TinyEmit.CodeGenerator.GenOperator | HYU-Compiter-Design/1_Scanner/cgen.c:129-159 | emits the arithmetic instruction or the comparison sequence |
| TinyEmit.CodeGenerator.GenStmt | HYU-Compiter-Design/1_Scanner/cgen.c:25-95 | emits the lines of a statement in the generator's own order and restores tmpOffset |
| TinyEmit.CodeGenerator.GenIf | HYU-Compiter-Design/1_Scanner/cgen.c:31-55 | the same for an if with its two backpatched slots |
| TinyEmit.CodeGenerator.GenRepeat | HYU-Compiter-Design/1_Scanner/cgen.c:57-69 | the same for a repeat |
| TinyEmit.CodeGenerator.GenStmts | HYU-Compiter-Design/1_Scanner/cgen.c:171-185 | the same for a statement list |
| TinyEmit.EveryLocationOnce | HYU-Compiter-Design/1_Scanner/code.c:60-97 | the generated file has exactly one line for each location of the code, and it is the instruction that belongs there: every skipped slot is backpatched exactly once |
| TinyEmit.LoadGenerated | HYU-Compiter-Design/1_Scanner/tm.c:221-303 | a file with each line of a code once, in whatever order, loads to that code |
| TinyEmit.LoadTooLong | HYU-Compiter-Design/1_Scanner/tm.c:221-303 | a file for more code than instruction memory holds does not load |
| TinyMachine.Machine.StepTM | HYU-Compiter-Design/1_Scanner/tm.c:307-397 | one instruction on the register and memory arrays, with the order of the range checks and the results of the simulator |
| TinyMachine.DivExactly | HYU-Compiter-Design/1_Scanner/tm.c:372-378 | a DIV leaves that quotient, or stops with nothing changed exactly if it divides by zero |
| TinyMachine.JumpsExactly | HYU-Compiter-Design/1_Scanner/tm.c:384-394 | which jumps are taken for a value below, at and above zero, and where to |
| TinyMachine.AddressesExactly | HYU-Compiter-Design/1_Scanner/tm.c:307-383 | a load or store is a data memory error exactly below 0 or above 1024, undefined exactly at 1024, and otherwise takes or leaves the word there |
| TinyMachine.ChecksExactly | HYU-Compiter-Design/1_Scanner/tm.c:314-318 | the same for the program counter |
| CInt.QuotientExactly | HYU-Compiter-Design/1_Scanner/tm.c:372-378 | there is exactly one such quotient, and the division computes it |
| TinyMachine.Machine.StepMany | HYU-Compiter-Design/1_Scanner/tm.c:400-553 | the step command: at most n steps, ending with the first result that is not OKAY |
| TinyMachine.Machine.ReadInstructions | HYU-Compiter-Design/1_Scanner/tm.c:221-303 | loading line by line |
| TinyMachine.LoadExactly | HYU-Compiter-Design/1_Scanner/tm.c:221-303 | a file loads exactly if all its lines name locations and registers that there are; then each place has the last line for it, or HALT |
| TinyMachine.LoadRefused | HYU-Compiter-Design/1_Scanner/tm.c:221-303 | and otherwise what is said of its first bad line |
| TinyMachine.Machine.constructor | HYU-Compiter-Design/1_Scanner/tm.c:225-236 | the initial state: zero but for the last address in data word 0, and HALT everywhere in instruction memory |
| TinyMachine.RunAdds | HYU-Compiter-Design/1_Scanner/tm.c:400-553 | running a steps and then b is running a + b |
| TinyMachine.RunStops | HYU-Compiter-Design/1_Scanner/tm.c:400-553 | a run that has stopped stays stopped, so it has one end |
| TinySymbols.Hash | HYU-Compiter-Design/1_Scanner/symtab.c:24-32 | the loop computes the hash, which is always a place in the table |
| TinySymbols.HashExactly | HYU-Compiter-Design/1_Scanner/symtab.c:24-32 | the hash is the remainder by 211 of the characters as one number to the base 16 |
| TinySymbols.SymbolTable.Insert | HYU-Compiter-Design/1_Scanner/symtab.c:63-84 | a new name is bound to its location; a known one keeps its own |
| TinySymbols.SymbolTable.StLookup | HYU-Compiter-Design/1_Scanner/symtab.c:89-96 | the location a name was inserted with, or -1, through hashing and chaining |
| TinySymbols.Analyzer.BuildSymtab | HYU-Compiter-Design/1_Scanner/analyze.c:89-95 | the table after the traversal |
| TinySymbols.Analyzer.InsertNode | HYU-Compiter-Design/1_Scanner/analyze.c:48-84 | a name met for the first time gets the next location |
| TinySymbols.AddStmtsDense | HYU-Compiter-Design/1_Scanner/analyze.c:48-95 | locations are 0, 1, 2, ... without gaps or repetition |
| TinySymbols.LocationsInOrder | HYU-Compiter-Design/1_Scanner/analyze.c:48-84 | and the location of a name is the number of different names that stand before it in the text |
| TinySymbols.AddStmtsNames | HYU-Compiter-Design/1_Scanner/analyze.c:21-33 | exactly the names of the program get one |
| WalRecovery.CommitAtomic | HYU-Operating-Systems/xv6-public/log.c:177-202 | a commit that crashes after any of its block writes recovers to all of the old home blocks or, from the header write on, to all of the new ones |
| WalRecovery.CommitSurvivesCrashes | HYU-Operating-Systems/xv6-public/log.c:69-122 | the same after any number of recoveries that crash at any point, and one that completes |
| WalRecovery.RecoveryRestarts | HYU-Operating-Systems/xv6-public/log.c:69-122 | a recovery that crashes at any write can be started again with the same result |
| WalRecovery.RecoveryIdempotent | HYU-Operating-Systems/xv6-public/log.c:115-122 | a second recovery changes no block at all |
| WalRecovery.CommitIsRecovery | HYU-Operating-Systems/xv6-public/log.c:192-202 | from the header on, a commit does what a recovery would do |
| WalRecovery.CommitCompletes | HYU-Operating-Systems/xv6-public/log.c:192-202 | an uninterrupted commit installs the transaction and leaves an empty header |
| WalRecovery.PostedAt | HYU-Operating-Systems/xv6-public/log.c:69-82 | each logged block ends with its logged contents and no other block changes, as the block numbers are distinct |
| WalRecovery.Redo | HYU-Operating-Systems/xv6-public/log.c:69-82 | a list of writes may be done again after any part of it |
| WalProtocol.StepKeepsInv | HYU-Operating-Systems/xv6-public/log.c:125-233 | a step of any interleaving of operations, guards, appends, reads, commits, single block writes and crashes keeps the protocol invariant if and only if it is not a commit that writes a log block behind the log region |
| WalProtocol.CrashAllOrNothing | HYU-Operating-Systems/xv6-public/log.c:69-202 | in any run without such a write, with any number of processes, a crash at any point followed by any crashed recoveries ends with the home blocks as when the batch began or as the file system showed them when it closed |
| WalProtocol.OneDisk | HYU-Operating-Systems/xv6-public/log.c:213-233 | in such a run the system is one disk to its users: only the append of log_write, and a crash, change what is shown |
| WalProtocol.FinishMovesBase | HYU-Operating-Systems/xv6-public/log.c:145-202 | in such a run a finished commit makes what was shown the state to fall back to |
| WalProtocol.ReservationHolds | HYU-Operating-Systems/xv6-public/log.c:125-174 | in every run, whatever the size of the log region and however many calls have passed the guard at once, the header count never exceeds LOGSIZE, an operation has its share of the log left, commit runs alone, logged blocks stay dirty, and an idle log admits an operation |
| WalOutside.NeverAppended | HYU-Operating-Systems/xv6-public/log.c:213-222 | in every run, a call of log_write by a process outside all operations is never appended while nobody is inside: it is the panic "log_write outside of trans", if the log has room for anything |
| WalOutside.AppendedExactly | HYU-Operating-Systems/xv6-public/log.c:213-222 | it is appended if and only if somebody is inside and the log has room |
| WalOutside.OutsideKeepsExactly | HYU-Operating-Systems/xv6-public/log.c:125-233 | what every step keeps survives that if and only if the block was logged already or a place is left that nobody inside may still need |
| WalLimits.AllOrNothingExactly | HYU-Operating-Systems/xv6-public/log.c:177-221 | with three processes, every crash of every run is all or nothing if and only if the log region has at most one block or at least NBUF, or reaches the end of the disk |
| WalLimits.FitsExactly | HYU-Operating-Systems/xv6-public/log.c:213-231 | the log region always has a block for each block that is logged, in every run of three processes, if and only if it has more than LOGSIZE blocks, or at most one |
| WalLimits.RaceFills | HYU-Operating-Systems/xv6-public/log.c:218-231 | the run that shows it: two calls pass the guard before either appends |
| WalLimits.OverrunLosesBlock | HYU-Operating-Systems/xv6-public/log.c:177-221 | and then the commit writes over the block behind a smaller region, and a crash before the header loses it |
| WalLimits.PanicFreeExactly | HYU-Operating-Systems/xv6-public/log.c:213-225 | with at most MAXOPBLOCKS calls an operation, no run meets "too big a transaction" if and only if the log region has more than LOGSIZE blocks |
| WalLimits.RoomyLogNeverPanics | HYU-Operating-Systems/xv6-public/log.c:218-221 | a log region above LOGSIZE blocks never panics when every call counts |
| WalLimits.SmallLogPanics | HYU-Operating-Systems/xv6-public/log.c:218-221 | a region of LOGSIZE blocks, as mkfs makes it, or fewer: a run within budget that panics |
| WalLimits.FullLogPanics | HYU-Operating-Systems/xv6-public/log.c:218-230 | if absorbed writes are free, a call within budget panics exactly when the log is full, and then its block is logged already |
| WalLimits.AbsorptionPanics | HYU-Operating-Systems/xv6-public/log.c:218-230 | such a run exists |
| WalLimits.EndMeetsPanic | HYU-Operating-Systems/xv6-public/bio.c:80-92 | the last operation out meets "bget: no buffers" exactly if the logged blocks, and the other blocks that somebody has in a buffer, are as many as the buffers |
| WalLimits.CommitPanicsExactly | HYU-Operating-Systems/xv6-public/log.c:177-202 | with n processes that may have a buffer each, reading outside operations as well, no run meets that panic in commit if and only if as many blocks as can be logged, the smaller of LOGSIZE and size + 1, and one for each process but the one that commits, are fewer than NBUF, or nothing can be logged at all |
| WalLimits.FullCommitPanics | HYU-Operating-Systems/xv6-public/log.c:145-202 | otherwise a run: the log is filled, others read, and the last operation out cannot commit |
| WalLimits.NoSizeIsSafe | HYU-Operating-Systems/xv6-public/log.c:145-230 | with as many buffers as LOGSIZE and three processes, no size of the log region is free of both panics |
| WalLog.Log.LogGuard | HYU-Operating-Systems/xv6-public/log.c:213-222 | which panic log_write meets before it takes the lock, and exactly when; it goes on only with an operation under way |
| WalLog.Log.LogAppend | HYU-Operating-Systems/xv6-public/log.c:223-232 | absorption or a new entry, the block pinned and its new contents visible, however many others have appended since the guard |
| WalLog.Log.LogWrite | HYU-Operating-Systems/xv6-public/log.c:213-233 | both with nobody in between: which panic is met, exactly when, and that nothing has changed then; otherwise the block is logged |
| WalLog.Log.TryBeginOp | HYU-Operating-Systems/xv6-public/log.c:125-141 | one round of the admission loop: enters exactly if no commit runs and the worst case fits |
| WalLog.Log.EndOp | HYU-Operating-Systems/xv6-public/log.c:145-174 | the last operation out commits, whatever buffers others hold: an empty header and all home blocks as shown; otherwise, and if it panics, nothing is written; which panic is met, and when |
| WalLog.Log.Commit | HYU-Operating-Systems/xv6-public/log.c:192-202 | the block writes of a commit, in order; or "bget: no buffers", exactly if something is logged and every buffer is dirty or held, before any write; what others hold stays as it is |
| WalLog.Log.WriteLog | HYU-Operating-Systems/xv6-public/log.c:177-190 | one log block for each logged block, with the cached contents, or that panic at the first one |
| WalLog.Log.WriteHead | HYU-Operating-Systems/xv6-public/log.c:101-113 | the header block |
| WalDisk.HeaderExactly | HYU-Operating-Systems/xv6-public/log.c:101-113 | word by word: the count, the block numbers, and behind them what was there |
| WalLog.Log.InstallTrans | HYU-Operating-Systems/xv6-public/log.c:69-82 | each home block gets its log block's contents and is no longer pinned |
| WalLog.Log.ReadHead | HYU-Operating-Systems/xv6-public/log.c:85-96 | the header in memory is the one on disk |
| WalLog.Log.RecoverFromLog | HYU-Operating-Systems/xv6-public/log.c:115-122 | the writes of a recovery |
| WalCache.BufferCache.Bget | HYU-Operating-Systems/xv6-public/bio.c:61-92 | the one buffer of a block, or of all that are neither held nor dirty the last one of the ring; none is found exactly if there is no such buffer |
| WalCache.BufferCache.Bread | HYU-Operating-Systems/xv6-public/bio.c:96-105 | a held buffer with the block's present contents |
| WalCache.BufferCache.Bwrite | HYU-Operating-Systems/xv6-public/bio.c:109-116 | one block write; the buffer is clean |
| WalCache.BufferCache.Pin | HYU-Operating-Systems/xv6-public/log.c:228-231 | the change log_write records: new contents shown, dirty, so never recycled |
| WalCache.BufferCache.Brelse | HYU-Operating-Systems/xv6-public/bio.c:120-141 | the last holder moves the buffer to the front of the ring, and all others stay in their order |
| WalCache.RingIsLastRelease | HYU-Operating-Systems/xv6-public/bio.c:120-141 | after any releases the ring is in the order of the last release of each buffer |
| WalCache.OldestRecycled | HYU-Operating-Systems/xv6-public/bio.c:80-90 | so the buffer that is recycled is the one of these that has been released longest ago |
| WalCache.RoomExactly | HYU-Operating-Systems/xv6-public/bio.c:80-92 | there is a buffer to recycle exactly if the dirty blocks, and the clean ones that somebody holds, are fewer than the buffers |
| WalCache.FindsExactly | HYU-Operating-Systems/xv6-public/bio.c:61-92 | bread finds a buffer for a block exactly if there is such room, or the block is one of these |
| RwLock.StepKeepsInv | HYU-Operating-Systems/xv6-public/xem.c:116-199 | a step of any thread in any state keeps the invariant if and only if it is not a wait that goes to sleep outside the queue; the invariant says that each semaphore has at most one owner, its sleepers are exactly those queued, its count is exact, reader counts the readers, and sharelock is the readers' exactly while some are in |
| RwLockLost.StuckExactly | HYU-Operating-Systems/xv6-public/xem.c:40-199 | among threads numbered from 0 some run gets stuck, with somebody asleep and nobody at work, if and only if there are more than NTHREAD of them |
| RwLockLost.RunKeepsInv | HYU-Operating-Systems/xv6-public/xem.c:116-199 | all along any run the invariant holds if and only if no wait is refused |
| RwLockLost.FewUsersTaken | HYU-Operating-Systems/xv6-public/xem.c:40-59 | no wait is refused, in any run, if at most NTHREAD threads use the lock and none of them has the number NTHREAD |
| RwLockLost.RefusedGetsStuck | HYU-Operating-Systems/xv6-public/xem.c:116-128 | as soon as a wait has been refused, its thread sleeps in every continuation, and some continuation gets stuck |
| RwLockLost.GetsStuck | HYU-Operating-Systems/xv6-public/xem.c:40-59 | a run that gets there: two writers hand over until head is at the last place, then the thread with that number waits behind one that is queued |
| RwLockLost.LostForever | HYU-Operating-Systems/xv6-public/xem.c:130-143 | nobody wakes a thread that sleeps outside the queues |
| RwLockLost.Settles | HYU-Operating-Systems/xv6-public/xem.c:155-199 | from any state whatever, the threads at work can go on until none is |
| RwLockLost.ForeignWakeup | HYU-Operating-Systems/xv6-public/proc.c:684-716 | a wake-up on a thread's own channel from elsewhere, as by an exiting child or kill, keeps the invariant if and only if the thread was not asleep on a semaphore |
| RwLockLost.TwoWriters | HYU-Operating-Systems/xv6-public/proc.c:684-716 | with any number of threads from two on, a run that shows what comes of it: a thread that waits for the lock is woken twice from elsewhere, and two writers are in their section |
| RwLockLost.WakeupsKeepInv | HYU-Operating-Systems/xv6-public/proc.c:684-716 | in runs with wake-ups from elsewhere between the steps, the invariant holds all along if and only if no wait is refused and no such wake-up finds its thread asleep on a semaphore |
| RwLockLost.ExclusionWithWakeups | HYU-Operating-Systems/xv6-public/xem.c:155-199 | in such a run a writer in its section excludes all readers and all other writers |
| RwLock.Exclusion | HYU-Operating-Systems/xv6-public/xem.c:155-199 | in every interleaving of any number of threads in which no wait is refused, a writer in its section excludes all readers and all other writers |
| RwLock.ReaderCount | HYU-Operating-Systems/xv6-public/xem.c:155-191 | in every such interleaving reader is the number of readers counted in, and no reader ever sleeps on sharelock |
| RwLock.NeverStuck | HYU-Operating-Systems/xv6-public/xem.c:116-199 | in every such interleaving, as long as some thread sleeps, some thread that is not idle can take its step |
| RwLock.NoOvertaking | HYU-Operating-Systems/xv6-public/xem.c:155-191 | over every run, refused waits included: of two threads queued for starvlock, the later one gets in only after the earlier one has |
| RwLock.WriterShutsOut | HYU-Operating-Systems/xv6-public/xem.c:170-190 | while a writer has starvlock no further reader is counted in |
| RwLock.StarvQueue | HYU-Operating-Systems/xv6-public/xem.c:116-143 | the queue changes only at its ends, first come first served |
| RwLock.Semaphore.XemWait | HYU-Operating-Systems/xv6-public/xem.c:116-128 | the semaphore step of a wait on the real circular queue: the count drops, and a thread that goes to sleep is queued or, if the queue refuses it, not |
| RwLock.Semaphore.XemUnlock | HYU-Operating-Systems/xv6-public/xem.c:130-143 | the semaphore step of an unlock, with the thread it wakes |
| WaitQueue.WQueue.Enqueue | HYU-Operating-Systems/xv6-public/xem.c:40-59 | appends, or refuses exactly if its duplicate scan matches or the queue is full |
| WaitQueue.WQueue.Dequeue | HYU-Operating-Systems/xv6-public/xem.c:61-74 | removes the first, or answers -1 |
| WaitQueue.WQueue.Scan | HYU-Operating-Systems/xv6-public/xem.c:44-51 | what the duplicate scan, which starts at head + 1 without wrapping, compares |
| WaitQueue.WQueue.IsEmpty | HYU-Operating-Systems/xv6-public/xem.c:22-29 | whether nothing is queued |
| WaitQueue.WQueue.IsFull | HYU-Operating-Systems/xv6-public/xem.c:31-38 | full means NTHREAD entries are queued, one place fewer than the array has |
| WaitQueue.ScanExact | HYU-Operating-Systems/xv6-public/xem.c:44-51 | exactly when the scan misses a duplicate, and exactly when it refuses a newcomer by mistake: only with head at the last place, by the word behind the array |
| FileCalls.CallAll | HYU-Operating-Systems/xv6-public/fs.c:479-676 | any sequence of reads, writes of both kinds and truncations on a new file, through its tree of blocks: each is answered as if the file were what its last writes have put at each place, with zeros between, until no block is free |
| FileCalls.CallOne | HYU-Operating-Systems/xv6-public/fs.c:479-676 | one such call |
| FileContents.LastWritten | HYU-Operating-Systems/xv6-public/fs.c:585-676 | after any sequence of writes of both kinds and truncations, a byte is what the last write that was taken and covers it has put there |
| FileContents.NeverWritten | HYU-Operating-Systems/xv6-public/fs.c:585-676 | a byte that no write has covered since the last truncation is zero |
| FileContents.SizeIsReached | HYU-Operating-Systems/xv6-public/fs.c:585-676 | the size is one more than the last place covered since the last truncation |
| FileBlocks.File.Readi | HYU-Operating-Systems/xv6-public/fs.c:585-609 | answers the bytes of the file at the offset, clipped to its size, zeros in holes; maps holes to zero blocks but changes no byte, and touches no other file's blocks |
| FileBlocks.File.Writei | HYU-Operating-Systems/xv6-public/fs.c:614-644 | after it the file is the old byte array with the source over it, through all four tiers; -1 past the end or the largest size, with nothing changed; no byte at or past the size is left behind |
| FileBlocks.File.WriteiP | HYU-Operating-Systems/xv6-public/fs.c:646-676 | the same without the check against the size; what lies between reads as zero |
| FileContents.PatchedIsWritten | HYU-Operating-Systems/xv6-public/fs.c:629-641 | bytes put into an array that is zero from the size on are the file written at that offset, and the array is zero from the new size on |
| FileBlocks.File.Bmap | HYU-Operating-Systems/xv6-public/fs.c:372-472 | the disk block of a file block: allocated at need along its path only, stable ever after, and zero when new; what is already mapped and its contents stay |
| FileBlocks.BlocksApart | HYU-Operating-Systems/xv6-public/fs.c:372-472 | two blocks of a file never share a disk block |
| FileBlocks.LeafNumber | HYU-Operating-Systems/xv6-public/fs.c:381-443 | block number to path and back, through the divisions of each tier |
| FileBlocks.NumberLeaf | HYU-Operating-Systems/xv6-public/fs.c:381-443 | path to block number and back: every leaf is the place of one block |
| FileBlocks.LeavesInOrder | HYU-Operating-Systems/xv6-public/fs.c:381-443 | the blocks of a file hang in the tree in their order |
| FileBlocks.ExtendsBytes | HYU-Operating-Systems/xv6-public/fs.c:372-472 | allocation changes no byte of the file |
| FileBlocks.File.Itrunc | HYU-Operating-Systems/xv6-public/fs.c:479-568 | frees every data and indirect block of the file exactly once, never reaches "freeing free block", and no other block of the bitmap changes |
| FileBlocks.File.FreeBelow | HYU-Operating-Systems/xv6-public/fs.c:497-564 | the loops over an indirect block and what hangs on it free exactly the blocks below it |
| FileBlocks.File.Balloc | HYU-Operating-Systems/xv6-public/fs.c:54-78 | the first free block, marked and zeroed, or failure exactly if all are in use |
| FileBlocks.File.Bfree | HYU-Operating-Systems/xv6-public/fs.c:81-95 | clears the bit of a block in use; panics at a free one |
| FileBlocks.TreeGrows | HYU-Operating-Systems/xv6-public/fs.c:393-398 | a zeroed free block put into an empty word keeps the tree: every block has one place |
| Umalloc.EveryUnitOnce | HYU-Operating-Systems/xv6-public/umalloc.c:24-90 | after any sequence of calls, each unit from sbrk is in exactly one free or live block, blocks do not overlap, and no two free blocks touch |
| Umalloc.BytesApart | HYU-Operating-Systems/xv6-public/umalloc.c:24-90 | after any sequence of calls, no byte that a live block was asked for is one of another block or in a header, live or free |
| Umalloc.AllGivenBack | HYU-Operating-Systems/xv6-public/umalloc.c:24-44 | once everything is freed, each stretch of memory from sbrk is a single free block again |
| Umalloc.AllocatedKeeps | HYU-Operating-Systems/xv6-public/umalloc.c:63-90 | malloc fails exactly if no free block is large enough and sbrk has no more, changing nothing; else it hands out a new block of just the units asked for and takes memory only if it must |
| Umalloc.FreeKeeps | HYU-Operating-Systems/xv6-public/umalloc.c:24-44 | free keeps the list in address order, joined on both sides, over the same units |
| Umalloc.GrownKeeps | HYU-Operating-Systems/xv6-public/umalloc.c:46-61 | morecore adds its region to the free blocks and changes nothing else |
| Umalloc.GrownFits | HYU-Operating-Systems/xv6-public/umalloc.c:68-89 | after morecore the search finds a block, so malloc's loop ends |
| Umalloc.FirstFitIsFirst | HYU-Operating-Systems/xv6-public/umalloc.c:74-88 | the search, from behind freep around the circle, finds the first node that is large enough |
| Umalloc.UnitsExactly | HYU-Operating-Systems/xv6-public/umalloc.c:69 | the units for so many bytes: room for them behind the header, and not with one unit less |
| Umalloc.Memory.Free | HYU-Operating-Systems/xv6-public/umalloc.c:24-44 | the search around the circle and the pointer splices, on the headers in memory, insert the block where it belongs |
| Umalloc.Memory.Before | HYU-Operating-Systems/xv6-public/umalloc.c:30-32 | the search loop ends at the node after which the block goes |
| Umalloc.Memory.MoreCore | HYU-Operating-Systems/xv6-public/umalloc.c:46-61 | at least 4096 units are asked for; the header for the new region and its free |
| Umalloc.Memory.Search | HYU-Operating-Systems/xv6-public/umalloc.c:74-88 | one round of the list: the first node from freep on that is large enough, or none |
| Umalloc.Memory.Take | HYU-Operating-Systems/xv6-public/umalloc.c:75-85 | unlinks an exact fit, else cuts off the tail end; the search goes on before it next time |
| Umalloc.Memory.Malloc | HYU-Operating-Systems/xv6-public/umalloc.c:63-90 | the headers in memory after malloc stand for what the list of blocks should be: a new block with room for the bytes behind its header, and not a unit more, or nothing changed |
| Lsrb.LogBecomesRoute | HYU-Embedded-System-Design/main.c:313-385 | for every tree maze whose log fits: the reduced log, followed at the junctions, arrives at the goal, and is the only route that does if there is one goal; without a goal nothing is left |
| Lsrb.DeadPart | HYU-Embedded-System-Design/main.c:313-385 | a part of the maze without a goal leaves the stack as it was, with is_back set |
| Lsrb.LivePart | HYU-Embedded-System-Design/main.c:313-385 | a part with a goal leaves the turns of the direct way to it on top of the stack |
| Lsrb.OneRoute | HYU-Embedded-System-Design/main.c:485-487 | with one goal there is one route |
| Lsrb.Robot.RunLsrb | HYU-Embedded-System-Design/main.c:335-385 | the loop with its nested cases and array stack computes the fold over the log |
| Lsrb.Robot.Explore | HYU-Embedded-System-Design/main.c:431-501 | the first drive, by the rule left before straight before right and back at dead ends, logs what the maze says and stops at the first goal; the log goes behind the end of its array exactly if it has more than 100 entries |
| Lsrb.Robot.Follow | HYU-Embedded-System-Design/main.c:485-487 | the second drive, one entry of the route for each junction, ends at a goal |
| Lsrb.Robot.BothDrives | HYU-Embedded-System-Design/main.c:568-584 | exploring, reducing and driving again: for every tree maze whose log fits in its array, which is exactly said, the robot arrives exactly if there is a goal |
| Lsrb.Robot.LogBranch | HYU-Embedded-System-Design/main.c:481 | appends to the branch list, or writes behind it if it is full |
| Lsrb.Robot.PushOptimal | HYU-Embedded-System-Design/main.c:313-319 | pushes unless the stack is full |
| Lsrb.Robot.PopOptimal | HYU-Embedded-System-Design/main.c:321-326 | pops unless it is empty |
| Lsrb.Robot.PeekOptimal | HYU-Embedded-System-Design/main.c:328-333 | the top, or -1 |
| Dijkstra.Globals.Run | HYU-Data-Structures/hw7/hw7_dijkstra.c:41-74 | the search succeeds if and only if s is not checked beforehand and every vertex is nearer than INF, and then every distance is the length of a shortest walk |
| Dijkstra.FoundDistances | HYU-Data-Structures/hw7/hw7_dijkstra.c:41-74 | what an exhausted search knows is right: distances are shortest, and INF means nothing nearer |
| Dijkstra.NoShorterWalk | HYU-Data-Structures/hw7/hw7_dijkstra.c:62-72 | where no edge improves a distance, no walk is shorter |
| Dijkstra.RoundKeeps | HYU-Data-Structures/hw7/hw7_dijkstra.c:59-73 | each round keeps: prev leads back along real edges, visited vertices are nearest and settled |
| Dijkstra.Globals.GetMinDist | HYU-Data-Structures/hw7/hw7_dijkstra.c:76-92 | a nearest unchecked vertex below INF, or none |
| Dijkstra.Globals.GetPath | HYU-Data-Structures/hw7/hw7_dijkstra.c:95-101 | ends, with a shortest walk backwards |
| EquivalenceClasses.Classes | HYU-Data-Structures/0412EquiClass_skiplist/equivalenceclass.c:23-76 | for every list of pairs: the groups are exactly the classes of the reflexive, symmetric and transitive closure, each element printed once |
| EquivalenceClasses.SameClass | HYU-Data-Structures/0412EquiClass_skiplist/equivalenceclass.c:47-76 | two elements are in one group if and only if they are equivalent |
| EquivalenceClasses.Lists.Output | HYU-Data-Structures/0412EquiClass_skiplist/equivalenceclass.c:47-76 | the output loop, classes in the order of their first members |
| EquivalenceClasses.Lists.Class | HYU-Data-Structures/0412EquiClass_skiplist/equivalenceclass.c:48-76 | one group is one whole class |
| EquivalenceClasses.Lists.Follow | HYU-Data-Structures/0412EquiClass_skiplist/equivalenceclass.c:53-75 | the unbounded loop ends, with nobody left waiting on the stack |
| EquivalenceClasses.Lists.Scan | HYU-Data-Structures/0412EquiClass_skiplist/equivalenceclass.c:56-68 | reading one list while its links become the stack: the neighbours still out are printed and pushed, all lists still to be read stay whole |
| EquivalenceClasses.Lists.AddPair | HYU-Data-Structures/0412EquiClass_skiplist/equivalenceclass.c:33-41 | a pair in both lists |
| EquivalenceClasses.Complete | HYU-Data-Structures/0412EquiClass_skiplist/equivalenceclass.c:70-71 | with the stack empty, what has been printed is closed under the pairs |
| Grep.Match | HYU-Operating-Systems/xv6-public/grep.c:72-82 | 1 exactly if some substring is in the language of the pattern, a prefix under a caret, a suffix under a final dollar |
| Grep.MatchHere | HYU-Operating-Systems/xv6-public/grep.c:85-96 | exactly if some word of the pattern starts here |
| Grep.MatchStar | HYU-Operating-Systems/xv6-public/grep.c:99-106 | exactly if the rest matches after some run of the starred character |
| Grep.HereStar | HYU-Operating-Systems/xv6-public/grep.c:89-90 | the language of a starred pattern, one step |
| Grep.HereOne | HYU-Operating-Systems/xv6-public/grep.c:93-94 | the language of a pattern that starts with one character, one step |
| Bpt.Table.DbInsert | HYU-Database-Systems/project3/src/bpt.c:749-826 | from any well-formed file: inserting is insertion into a finite map, -1 and no change exactly if the key is there already; the file is well-formed again (keys sorted, separators bounding subtrees, parents, leaf chain, page sizes, free list), through leaf splits, node splits up to the root, and a new root |
| Bpt.Table.DbDelete | HYU-Database-Systems/project3/src/bpt.c:1260-1296 | deleting is removal from the map, -1 and no change exactly if the key is not there; the file is well-formed again, through delayed merges, redistribution in all four cases, and a lower or vanished root |
| Bpt.Table.DbFind | HYU-Database-Systems/project3/src/bpt.c:281-324 | 0 and the value exactly if the map has the key; keys beyond 32 bits are not there |
| Bpt.Table.FindLeaf | HYU-Database-Systems/project3/src/bpt.c:225-276 | the leaf whose range has the key, or for keys beyond 32 bits the nearest key; 0 exactly if there is no tree |
| PooledTable.DbInsert | HYU-Database-Systems/project3/src/bpt.c:749-826 | the same with the pages in the buffer pool: whatever buffers are given up, and whatever pages are read in between, the buffers and the disk hold the new pages, free list and root, if all that the insertion asks of the pool is answered; and that it is, if some buffer in the list has no pin and the file does not grow |
| PooledTable.DbDelete | HYU-Database-Systems/project3/src/bpt.c:1260-1296 | and so with a deletion, which is always answered if some buffer in the list has no pin |
| PooledTable.DbFind | HYU-Database-Systems/project3/src/bpt.c:281-324 | a search that reads each page through the pool: 0 and the value exactly if the map has the key; it ends if some buffer in the list has no pin |
| PooledTable.FindLeaf | HYU-Database-Systems/project3/src/bpt.c:225-276 | the way down through the pool, one page pinned at a time |
| PooledTable.WithReadsAfter | HYU-Database-Systems/project3/src/buffer_manager.c:259-273 | reads between the calls change nothing of what they come to |
| BptOrder.ContentsAreRecords | HYU-Database-Systems/project3/src/bpt.c:281-324 | the map is what is in the pages: a key is in it exactly if a leaf has a record for it, with that value |
| BptOrder.OneRecord | HYU-Database-Systems/project3/src/bpt.c:749-826 | no key has two records anywhere in the tree |
| BptOrder.EqualDepth | HYU-Database-Systems/project3/src/bpt.c:225-276 | any two ways from the root to a leaf are equally long |
| BptOrder.ChainIsInOrder | HYU-Database-Systems/project3/src/bpt.c:428-496 | the right pointers lead through the leaves in the order of the tree, and end at the last one |
| BptOrder.EachLeafOnce | HYU-Database-Systems/project3/src/bpt.c:428-496 | every leaf of the file is in that order, once |
| BptOrder.KeysInOrder | HYU-Database-Systems/project3/src/bpt.c:428-496 | along the chain all keys ascend |
| BptTree.OnePage | HYU-Database-Systems/project3/src/bpt.c:225-276 | two pages of one level are never there for the same key |
| BptSplit.SplitKeeps | HYU-Database-Systems/project3/src/bpt.c:428-606 | splitting a leaf or a node at any place, with new parents for the kids that move, keeps the tree and the map |
| BptMerge.MergeKeeps | HYU-Database-Systems/project3/src/bpt.c:937-1023 | merging two neighbours, leaves or nodes, keeps the tree and the map |
| BptShare.ShareKeeps | HYU-Database-Systems/project3/src/bpt.c:1026-1146 | giving a record or kid to the neighbour, as a merge that is split elsewhere, keeps the tree and the map |
| BptShare.ShareLeaves | HYU-Database-Systems/project3/src/bpt.c:1040-1101 | the pages after a merge and a split of two leaves: the records parted at the new place, another separator, all other pages untouched |
| BptShare.ShareToLeft | HYU-Database-Systems/project3/src/bpt.c:1057-1084 | an empty first node takes over the separator and the first kid of its neighbour |
| BptShare.ShareToRight | HYU-Database-Systems/project3/src/bpt.c:1104-1131 | an empty node takes over the separator and the last kid of its left neighbour |
| BptRoot.RaiseKeeps | HYU-Database-Systems/project3/src/bpt.c:662-704 | a root above the root keeps the tree and the map |
| BptRoot.LowerKeeps | HYU-Database-Systems/project3/src/bpt.c:899-921 | a root with one kid can give way to it |
| BptRoot.LastPage | HYU-Database-Systems/project3/src/bpt.c:893-897 | a root that is an empty leaf is the only page, and the map is empty |
| BptLeaf.PutKeeps | HYU-Database-Systems/project3/src/bpt.c:404-424 | one record more in its place in its leaf is one key more in the map |
| BptLeaf.TookKeeps | HYU-Database-Systems/project3/src/bpt.c:842-856 | one record less is one key less |
| Bpt.NewRootKeeps | HYU-Database-Systems/project3/src/bpt.c:662-704 | the pages written for a new root are those of a raised tree split below the root |
| Bpt.Table.InsertIntoParent | HYU-Database-Systems/project3/src/bpt.c:606-659 | a page has been cut in two and nobody knows the right half: afterwards the file is well-formed, with the map unchanged |
| Bpt.Table.InsertIntoInternal | HYU-Database-Systems/project3/src/bpt.c:499-515 | the shifting loop puts key and page where they belong |
| Bpt.Table.InsertIntoInternalAfterSplitting | HYU-Database-Systems/project3/src/bpt.c:519-603 | a node without room is split, and the split handed on to its parent |
| Bpt.Table.SplitInternal | HYU-Database-Systems/project3/src/bpt.c:519-597 | 124 keys stay, one goes up, the others go to the new page with their kids, which get their new parent one by one |
| Bpt.Table.InsertIntoLeafAfterSplitting | HYU-Database-Systems/project3/src/bpt.c:428-496 | the map gains the record, and the file is well-formed again |
| Bpt.Table.CutLeaf | HYU-Database-Systems/project3/src/bpt.c:463-488 | of 32 records sixteen stay, sixteen go to a new leaf, which is linked between the leaf and its old right neighbour, and the separator is the first key that went |
| Bpt.Table.GetInsertionIndex | HYU-Database-Systems/project3/src/bpt.c:384-401 | the place of a kid in its parent |
| Bpt.Table.DeleteEntry | HYU-Database-Systems/project3/src/bpt.c:1149-1255 | without the entry the pages are those of a tree; afterwards the file is well-formed and the map that of the tree |
| Bpt.Table.FillUp | HYU-Database-Systems/project3/src/bpt.c:1197-1252 | an empty page that is not the root: it is merged with its neighbour or gets something from it, and the map is that of the tree |
| Bpt.Table.RemoveEntryFromPage | HYU-Database-Systems/project3/src/bpt.c:842-878 | the search and the shifting loop take out the entry of the key |
| Bpt.Table.GetNeighborIndex | HYU-Database-Systems/project3/src/bpt.c:829-839 | -2 for the first kid, otherwise two less than its place |
| Bpt.Table.WritePage | HYU-Database-Systems/project3/src/buffer_manager.c:275-284 | the one page of the file that a write changes, and the call that it is |
| Bpt.MadeAll | HYU-Database-Systems/project3/src/bpt.c:749-1296 | the calls that have been made of the buffers are all allowed, and come to just the pages, the root and the free list |
| Bpt.Table.CoalescePage | HYU-Database-Systems/project3/src/bpt.c:937-1023 | an empty page and a small neighbour become one, the page is freed, and the separator deleted from the parent |
| Bpt.Table.RedistributePage | HYU-Database-Systems/project3/src/bpt.c:1026-1146 | an empty page gets one entry from a large neighbour; the map is unchanged and no page empty |
| Bpt.Table.AdjustRoot | HYU-Database-Systems/project3/src/bpt.c:881-934 | a root without keys goes, for its kid or for no tree |
| Bpt.Table.Alloc | HYU-Database-Systems/project3/src/disk_space_manager.c:8-58 | a page not in use, the first of the free list or the first of a hundred new ones; every page of the file stays in use or in the free list, and in one of them only |
| Bpt.WideKeysMislead | HYU-Database-Systems/project3/src/bpt.c:487 | a leaf with keys from 2^31 to 2^32 - 1 is split at a separator below all its keys, so every key of the left half is looked for in the right one |
| Bpt.SeparatorKept | HYU-Database-Systems/project3/src/bpt.c:487-561 | a separator survives being stored in an int exactly if the key has 32 bits |
| Bpt.ToIntExactly | HYU-Database-Systems/project3/src/bpt.c:487-561 | what a key becomes in an int: the one that differs by a multiple of 2^32 |
| Bpt.CutExactly | HYU-Database-Systems/project3/src/bpt.c:326-331 | half of a length, rounded up |
| BptTree.ClampedExactly | HYU-Database-Systems/project3/src/bpt.c:254-267 | of all keys of 32 bits the one next to any key |
| DiskSpace.File.FileAllocPage | HYU-Database-Systems/project3/src/disk_space_manager.c:8-58 | the page freed last, or the first of a hundred new ones with the others in the list; pages in use are untouched |
| DiskSpace.File.FileFreePage | HYU-Database-Systems/project3/src/disk_space_manager.c:64-74 | the page is the first of the list now |
| DiskSpace.OneChain | HYU-Database-Systems/project3/src/disk_space_manager.c:8-74 | the header and the links in the pages determine the list |
| BufferPool.Pool.BufferReadPage | HYU-Database-Systems/project3/src/buffer_manager.c:259-273 | reading returns what was last written to the page, whether it is in a buffer or on the disk, and changes what no page holds, whatever is evicted; the buffer is pinned once more and is the most recent one; no return exactly if there is no room |
| BufferPool.Pool.BufferWritePage | HYU-Database-Systems/project3/src/buffer_manager.c:275-284 | writing changes what this page holds and no other one, whatever is evicted; no return exactly if there is no room |
| BufferPool.Pool.GetBufferIndex | HYU-Database-Systems/project3/src/buffer_manager.c:27-47 | the buffer that has the page, else the first empty one, else the least recent one without a pin, written back if dirty; no page gets two buffers; no return exactly if none is empty and all in the list are pinned |
| BufferPool.Pool.GetLruIndex | HYU-Database-Systems/project3/src/buffer_manager.c:49-63 | the least recent buffer without a pin; no return exactly if all in the list are pinned |
| BufferPool.Pool.ArrangeLruList | HYU-Database-Systems/project3/src/buffer_manager.c:65-121 | in all five cases the indices form the list with this buffer moved to its end |
| BufferPool.Pool.BufferWriteToDiskTable | HYU-Database-Systems/project3/src/buffer_manager.c:167-185 | all pages of the table are on the disk as they were, and in no buffer |
| BufferPool.Pool.StartTable | HYU-Database-Systems/project3/src/buffer_manager.c:138-165 | a new header page is on the disk and in a clean buffer |
| BufferPool.Pool.GetPageInBuffer | HYU-Database-Systems/project3/src/buffer_manager.c:9-16 | the buffer of a page, or -1 exactly if there is none |
| LruList.OrderIsLastUse | HYU-Database-Systems/project3/src/buffer_manager.c:65-121 | after any sequence of uses the list is ordered by last use |
| LruList.EachUsedOnce | HYU-Database-Systems/project3/src/buffer_manager.c:65-121 | and has each buffer used once |
| LruList.SearchEndsExactly | HYU-Database-Systems/project3/src/buffer_manager.c:49-63 | the search for a buffer to give up ends if and only if some buffer in the list has no pin |
| LruList.UnlinkMiddle | HYU-Database-Systems/project3/src/buffer_manager.c:108-116 | taking a buffer out of the middle leaves the list of the others |
| LruList.Ends | HYU-Database-Systems/project3/src/buffer_manager.c:72-79 | only the last buffer is its own next, only the first its own predecessor, only buffers outside the list have neither |
| BufferPool.StoredKeeps | HYU-Database-Systems/project3/src/buffer_manager.c:286-409 | a buffer that takes a page over keeps every other page where it is |
| PagedStore.ServeAll | HYU-Database-Systems/project3/src/buffer_manager.c:187-284 | any calls in any order (reading and writing pages, a new root, taking and giving back pages): as far as there are answers, they are those of a plain map with a root and a free list, whatever is evicted in between; with a buffer in the list that has no pin, all are answered up to one that takes a page from an empty free list, and afterwards there is such a buffer again |
| PagedStore.Serve | HYU-Database-Systems/project3/src/buffer_manager.c:187-284 | one call; there is no answer only if all buffers in the list are pinned, or exactly if a page is asked for with the header lost |
| PagedTables.BufferAllocPage | HYU-Database-Systems/project3/src/buffer_manager.c:187-230 | takes the first page of the free list, or the first of a hundred new ones; header buffer, header on disk and the links of the free pages stay in step, and of all pages only the header says something else; it goes astray exactly if the free list is empty and the header is dirty in the buffer that is to be given up next |
| PagedTables.BufferFreePage | HYU-Database-Systems/project3/src/buffer_manager.c:232-256 | the page is the first of the free list, and all stays in step, even if the header's buffer is given up for the page and the two words are moved within one buffer |
| PagedTables.LosesHeader | HYU-Database-Systems/project3/src/buffer_manager.c:187-216 | a run with two buffers that ends so: the header is written back with pages that the file has not got yet, and the file's own routine reads behind its end |
| PagedTables.PinnedNotLost | HYU-Database-Systems/project3/src/bpt.c:783-822 | not while the header is pinned, as it is all through an insertion |
| PagedTables.NewKeeps | HYU-Database-Systems/project3/src/buffer_manager.c:198-215 | a hundred new pages keep everything in step, whichever buffer is given up for the first of them |
| PagedTables.OldKeeps | HYU-Database-Systems/project3/src/buffer_manager.c:217-225 | taking a page from the list keeps everything in step, even if it is loaded over the header |
| PagedTables.FreedKeeps | HYU-Database-Systems/project3/src/buffer_manager.c:243-251 | so does giving one back |
| PagedTables.VacatedInStep | HYU-Database-Systems/project3/src/buffer_manager.c:34-46 | giving up any buffer, dirty or not, keeps the free list on the disk |
| PagedStore.NewTable | HYU-Database-Systems/project3/src/buffer_manager.c:138-165 | a new table is an empty store |
| StrideShares.FairShares | HYU-Operating-Systems/xv6-public/proc.c:445-571 | over every run that keeps pass values near virtual time, in which two processes stay with the heap, their ticks weighed by their strides differ by at most a bound, however long the run |
| StrideShares.ShareOfTime | HYU-Operating-Systems/xv6-public/proc.c:536-568 | in such a run a process that stays gets ticks in proportion to its tickets: weighed by its stride they are the virtual time that has passed, up to a bound that does not grow |
| StrideShares.QueuesShare | HYU-Operating-Systems/xv6-public/proc.c:451-512 | the queues share with a process that stays in the proportion of the tickets that are left to them, up to a bound that does not grow |
| StrideShares.QueuesMove | HYU-Operating-Systems/xv6-public/proc.c:458-503 | their pass value moves by 10000 over those tickets for each tick, and for each hundred rounds with nothing to run |
| StrideShares.PassMoves | HYU-Operating-Systems/xv6-public/proc.c:562-565 | the pass value of a process that stays moves by its stride for each tick, with any number of processors, and though ticks be set back |
| StrideLimits.FairExactly | HYU-Operating-Systems/xv6-public/proc.c:445-571 | with k processors and at most q ticks measured at a time, there is a bound for the difference of any two processes over all runs, in which no ticks of a running process are set back, if and only if k is one |
| StrideLimits.NearExactly | HYU-Operating-Systems/xv6-public/proc.c:451-467 | the same for how far the pass value of the queues gets from virtual time |
| StrideLimits.DriftsApart | HYU-Operating-Systems/xv6-public/proc.c:451-467 | with two processors or more, runs in which one of two processes with equal tickets gets any number of ticks more, and the queues any distance ahead, while the other is run once |
| StrideRuns.RunKeeps | HYU-Operating-Systems/xv6-public/proc.c:445-571 | over every run of dispatches, wake-ups, share settings, exits, execs, forks, ticks and boosts, with any number of processors, in which no ticks of a running process are set back: virtual time never goes back, tickets add up to at most 80, and nothing gets more than a fixed bound ahead of the queues |
| StrideRuns.RunNear | HYU-Operating-Systems/xv6-public/proc.c:445-571 | if besides the queues take no turn while another processor runs a process with an earlier pass value, all pass values stay within a fixed bound of virtual time; with one processor the queues never take such a turn |
| StrideRuns.PassesKept | HYU-Operating-Systems/xv6-public/proc.c:498-564 | the same for one step, with the bounds: with k processors and at most q ticks measured, mlfqpv stays within 500qk of virtual time, and pass values within 10000q more |
| StrideRuns.TurnIsTime | HYU-Operating-Systems/xv6-public/proc.c:451-456 | whoever is chosen has the least pass value of all that wait, and with one processor of all |
| Stride.StepKeeps | HYU-Operating-Systems/xv6-public/proc.c:445-571 | with any number of processors, a step keeps the invariant if and only if it does not set back the ticks of a process that is being run below those of its dispatch; from a state with the invariant no step takes virtual time back |
| Stride.CountedExactly | HYU-Operating-Systems/xv6-public/proc.c:477-564 | what the scheduler measures of a process that is back is never negative exactly as long as no event does that: a wake-up by the clock, kill, the exit of a thread that is not the first, an exec, or a new process in the slot |
| Stride.TimeStays | HYU-Operating-Systems/xv6-public/proc.c:451-564 | the least pass value, those of running processes included, does not decrease in a step that measures no negative time, with any number of processors |
| StrideLimits.ClockTakesTimeBack | HYU-Operating-Systems/xv6-public/proc.c:684-705 | a run in which it does decrease: the clock wakes up a thread whose process is being run by another one |
| StrideLimits.SetBackExactly | HYU-Operating-Systems/xv6-public/proc.c:477-503 | with one processor, a step makes it possible for virtual time to go back if and only if it sets back the ticks of the process that is being run, and that process will be asked for them |
| StrideLimits.BackExactly | HYU-Operating-Systems/xv6-public/proc.c:498-564 | and the next step can take it back exactly if the running process has lost ticks |
| StrideFaults.FaultsExactly | HYU-Operating-Systems/xv6-public/proc.c:536-563 | from any state, with any number of processors, a division by a process's tickets that are zero can still come, with nobody else leaving an entry behind, if and only if there is a stale entry: in the heap, or being run and able to come back, for a slot that has no tickets any more |
| StrideFaults.BecomesStale | HYU-Operating-Systems/xv6-public/proc.c:260-354 | there comes to be one exactly when a process with tickets leaves its slot, by exit or by exec of another thread, with an entry in the heap or with threads still counted runnable while a processor runs it from the heap, or when a slot is used again that a processor still has |
| StrideFaults.CleanNeverFaults | HYU-Operating-Systems/xv6-public/proc.c:445-571 | as long as none does, no run divides by zero |
| StrideFaults.StaleEntryFaults | HYU-Operating-Systems/xv6-public/proc.c:89-315 | a run that divides by zero: a thread wakes up while another one runs, the process exits, the slot is used again, and the old entry is found |
| StrideFaults.DividesByZero | HYU-Operating-Systems/xv6-public/proc.c:461-563 | a step divides by zero exactly if it brings back a process from the heap that has lost its share; the pool of tickets that is divided by elsewhere is never below 20 |
| StrideFaults.Surfaces | HYU-Operating-Systems/xv6-public/proc.c:451-564 | a stale entry anywhere in the heap can get its turn: the queues use up theirs, and what is before it is dropped |
| StrideFaults.ForkFaults | HYU-Operating-Systems/xv6-public/proc.c:1361-1423 | another such run: a thread calls exec while its process is run, and forks; the child gets the slot that the processor still has |
| Scheduler.Scheduler.MlfqBack | HYU-Operating-Systems/xv6-public/proc.c:498-524 | what the scheduler does when a process of the queues is back is that step of the schedule, whatever has become of its ticks in the meantime |
| Scheduler.Scheduler.MlfqTakes | HYU-Operating-Systems/xv6-public/proc.c:476-495 | a process of the queues is run, and its ticks noted |
| Scheduler.Scheduler.Demote | HYU-Operating-Systems/xv6-public/proc.c:505-512 | a process that has used up its allotment goes a level down, with its ticks at zero |
| Levels.LowExactly | HYU-Operating-Systems/xv6-public/proc.c:498-524 | after any ticks, turns and fresh starts, a process of the queues is in the lowest one if and only if, since it last started afresh, it has used up HALLOT in the highest and then MALLOT in the middle one |
| Levels.MiddleExactly | HYU-Operating-Systems/xv6-public/proc.c:498-524 | the same for the middle one |
| Levels.HighExactly | HYU-Operating-Systems/xv6-public/proc.c:498-524 | and for the highest |
| Scheduler.Scheduler.StrideTakes | HYU-Operating-Systems/xv6-public/proc.c:536-554 | taking the next process from the heap is a step, with or without a thread to run, whatever its tickets |
| Scheduler.Scheduler.StrideBack | HYU-Operating-Systems/xv6-public/proc.c:559-565 | when a process of the heap is back; the division by its tickets is by zero exactly if it comes back with none |
| Scheduler.Scheduler.NoProcess | HYU-Operating-Systems/xv6-public/proc.c:458-467 | a hundred rounds of one processor with empty queues cost as much as one tick, whatever the others run |
| Scheduler.Scheduler.Wakeup | HYU-Operating-Systems/xv6-public/proc.c:697-714 | a process that becomes runnable comes in at the least pass value; the clock starts one of the queues afresh in the highest; nobody else changes |
| Stride.EntryExactly | HYU-Operating-Systems/xv6-public/proc.c:707-712 | what the least pass value is |
| Scheduler.Scheduler.SetCpuShare | HYU-Operating-Systems/xv6-public/proc.c:907-940 | shares are given as long as all of them together are at most 80; then the process belongs to the heap, with just these tickets |
| Scheduler.Scheduler.ReleaseTickets | HYU-Operating-Systems/xv6-public/proc.c:304-315 | an exit gives its tickets back, takes nothing out of the heap, and leaves the slot at the highest level |
| Scheduler.Scheduler.TakeSlot | HYU-Operating-Systems/xv6-public/proc.c:89-117 | a slot for a new process, which starts in the highest queue, or for a thread |
| Scheduler.Scheduler.MoveTo | HYU-Operating-Systems/xv6-public/proc.c:1361-1423 | a thread that calls exec takes level, ticks and tickets over from the slot of the first one |
| Scheduler.Scheduler.AddTick | HYU-Operating-Systems/xv6-public/proc.c:846-862 | a tick of the timer for the process that is run, or one taken back before it yields |
| Scheduler.Scheduler.Boost | HYU-Operating-Systems/xv6-public/proc.c:865-900 | a process found in a lower queue starts afresh in the highest one; it keeps its tickets, and nobody else changes |
| MinHeap.Heap.HeapInsert | HYU-Operating-Systems/xv6-public/minheap.c:12-52 | refused exactly if the heap is full or the scan of slots 0 to heapcapa - 1 meets the index, so never because of the last slot and always for process 0 in a heap with something in it; otherwise the heap has one node more, which comes first of all if none is earlier |
| MinHeap.Heap.HeapDelete | HYU-Operating-Systems/xv6-public/minheap.c:56-98 | takes out the root, and the heap has all other nodes in order |
| MinHeap.Heap.GetPvHeap | HYU-Operating-Systems/xv6-public/minheap.c:110-116 | the least pass value, or -1 exactly if the heap is empty |
| MinHeap.RiseStep | HYU-Operating-Systems/xv6-public/minheap.c:34-49 | one swap upwards |
| MinHeap.SinkStep | HYU-Operating-Systems/xv6-public/minheap.c:77-95 | one swap downwards |
| AddressSpaces.Vm.AllocUvm | HYU-Operating-Systems/xv6-public/vm.c:221-249 | success maps each new page to a zeroed page of its own and changes nothing else, and was only possible as none of the range was mapped; running out of memory at any point leaves no page of the range mapped, frees those that were and leaves all else as it was, so that nothing has changed if none was, and only if at most as many were free as the range has pages and a space can have tables; a panic only if one was |
| AddressSpaces.Vm.DeallocUvm | HYU-Operating-Systems/xv6-public/vm.c:255-279 | exactly the mapped pages of the range become free, in spite of the jump over missing tables; all other mappings, pages and owners stay |
| AddressSpaces.Vm.CopyUvm | HYU-Operating-Systems/xv6-public/vm.c:315-345 | the copy has just the flags and the contents of the original on pages of its own, and the kernel ranges; the original is untouched; if memory runs out, which it does only with few pages free, every page belongs to whom it belonged before; success only if every page is there, and a panic only if one is not |
| AddressSpaces.Vm.FreeVm | HYU-Operating-Systems/xv6-public/vm.c:283-298 | every page of the space, page tables and directory included, becomes free; nothing else changes |
| AddressSpaces.FreedOnce | HYU-Operating-Systems/xv6-public/vm.c:283-298 | these pages were not in the free list before, and no page is in it twice afterwards |
| AddressSpaces.Vm.SetupKvm | HYU-Operating-Systems/xv6-public/vm.c:117-136 | a new space with the kernel ranges, each page open just as asked for, and no user pages, exactly if they do not overlap and memory suffices; a remap only if two overlap; without memory, that is with at most 1025 pages free, everything is as before |
| AddressSpaces.Vm.MapPages | HYU-Operating-Systems/xv6-public/vm.c:60-80 | the pages of the range are mapped to consecutive frames, present, and open just as asked for, and none was mapped before; a remap only if one was, and out of memory only with no page free |
| AddressSpaces.Vm.MapPage | HYU-Operating-Systems/xv6-public/vm.c:68-77 | one round: mapped, present, and open to writing and to user code just as asked for; out of memory with nothing changed; or a remap exactly if the page was mapped |
| AddressSpaces.PresentExactly | HYU-Operating-Systems/xv6-public/vm.c:73 | the flags of an entry, bit by bit: present, and all else as asked for |
| AddressSpaces.UpExactly | HYU-Operating-Systems/xv6-public/vm.c:233-260 | a rounded size is the first page without a byte in front of it |
| AddressSpaces.RangeExactly | HYU-Operating-Systems/xv6-public/vm.c:66-79 | a range is made of the pages that its bytes are in |
| AddressSpaces.ZerosExactly | HYU-Operating-Systems/xv6-public/vm.c:241 | a zeroed page: 4096 zero bytes |
| AddressSpaces.Vm.WalkPgdir | HYU-Operating-Systems/xv6-public/vm.c:35-55 | finds the table, or makes one that changes no mapping |
| AddressSpaces.Vm.Kalloc | HYU-Operating-Systems/xv6-public/kalloc.c:82-95 | the first page of the free list, or 0 exactly if there is none |
| AddressSpaces.Vm.constructor | HYU-Operating-Systems/xv6-public/kalloc.c:46-53 | the pages of a range are free, once each |
| AddressSpaces.Restored | HYU-Operating-Systems/xv6-public/vm.c:235-246 | emptying a range in which nothing was mapped leaves all mappings and owners as they were, but for page tables |
| AddressSpaces.Undone | HYU-Operating-Systems/xv6-public/vm.c:235-246 | pages mapped one after the other and then given back, with whatever was mapped behind them in the range, leave the range empty and all else as it was |
| AddressSpaces.CameAndWent | HYU-Operating-Systems/xv6-public/vm.c:342-344 | a space made and freed again leaves everything as it was |
| PageFrames.LinkKeeps | HYU-Operating-Systems/xv6-public/vm.c:45-52 | a new page table changes no mapping of any space |
| PageFrames.MapKeeps | HYU-Operating-Systems/xv6-public/vm.c:71-73 | a new mapping changes no other one, and its page is nobody else's |
| PageFrames.UnmapKeeps | HYU-Operating-Systems/xv6-public/vm.c:269-276 | a mapped user page belongs to this address of this space only |
| PageFrames.AbandonKeeps | HYU-Operating-Systems/xv6-public/vm.c:290-297 | without user pages, tables and directory of a space can go |
| Lc2kTheorem.SimulatesSource | HYU-Computer-Architecture/project1/simulator/simulate.c:58-136 | for every program the assembler takes: the simulator on its words, started anywhere, does step by step what the source says with labels standing for their lines, as long as a line has not been written over, up to the same end |
| Lc2kTheorem.BranchLands | HYU-Computer-Architecture/project1/assembler/assemble.c:158-165 | a branch that is taken lands on the line of its label |
| Lc2kTheorem.LoadsLabel | HYU-Computer-Architecture/project1/assembler/assemble.c:155-162 | a load by label gets the word at that line |
| Lc2kTheorem.SameInstruction | HYU-Computer-Architecture/project1/simulator/simulate.c:72-113 | the word at the program counter decodes to the instruction in the source |
| Lc2kAssembler.Assembler.Assemble | HYU-Computer-Architecture/project1/assembler/assemble.c:55-181 | succeeds exactly if there are at most 51 lines and all labels and lines are in order, and each word is then right for its line |
| Lc2kAssembler.Assembler.ReadLines | HYU-Computer-Architecture/project1/assembler/assemble.c:55-77 | stops exactly if a label is a duplicate, too long, or starts with a digit, or if all lines that the array has room for are in order and there are more |
| Lc2kAssembler.Assembler.AssembleLine | HYU-Computer-Architecture/project1/assembler/assemble.c:79-180 | a line is taken exactly if its fields are, and the word decodes to what it says, with the number of the operation in its bits and zeros where nothing is used |
| Lc2kAssembler.RegistersExactly | HYU-Computer-Architecture/project1/assembler/assemble.c:108-152 | in the bits of a word the registers are those of its line |
| Lc2kAssembler.AddressExactly | HYU-Computer-Architecture/project1/assembler/assemble.c:153-175 | the lower half of a load or store is the number in the line, or the first line with the label |
| Lc2kAssembler.WayExactly | HYU-Computer-Architecture/project1/assembler/assemble.c:153-175 | that of a branch is the number in the line, or the way from the next line to that of the label |
| Lc2kAssembler.FillExactly | HYU-Computer-Architecture/project1/assembler/assemble.c:98-106 | a filled word is the number, or the line of the label |
| Lc2kAssembler.AtoiExactly | HYU-Computer-Architecture/project1/assembler/assemble.c:108-163 | a number in the text is what its digits say in decimal, after a sign |
| Lc2kAssembler.IsNumberExactly | HYU-Computer-Architecture/project1/assembler/assemble.c:228-231 | which text counts as a number |
| Lc2kAssembler.Assembler.GetLabelAddr | HYU-Computer-Architecture/project1/assembler/assemble.c:233-245 | the first line with the label, or -1 exactly if there is none |
| Lc2kAssembler.LabelsUnique | HYU-Computer-Architecture/project1/assembler/assemble.c:59-62 | in a program that is taken a label stands at one line |
| Lc2k.OffsetBack | HYU-Computer-Architecture/project1/assembler/assemble.c:169-175 | every offset that fits in 16 bits comes back with its sign |
| Lc2k.Unpack | HYU-Computer-Architecture/project1/assembler/assemble.c:112-175 | every field comes back as it was packed |
| Lc2k.ExecExactly | HYU-Computer-Architecture/project1/simulator/simulate.c:72-134 | what each instruction does to registers, memory and counter, by arithmetic and bits alone |
| Lc2k.AddExactly | HYU-Computer-Architecture/project1/simulator/simulate.c:76-80 | an add is the one word that differs from the sum by a multiple of 2^32 |
| Lc2k.NorExactly | HYU-Computer-Architecture/project1/simulator/simulate.c:82-86 | a nor has each of its 32 bits exactly where neither operand has it |
| Lc2k.RunExactly | HYU-Computer-Architecture/project1/simulator/simulate.c:58-136 | a run ends at its halt if that is one of the first 200 instructions, and at the 201st otherwise |
| Lc2k.Simulator.Simulate | HYU-Computer-Architecture/project1/simulator/simulate.c:58-136 | the loop is the run of the machine, with its end after 200 instructions |
| Lc2k.Simulator.Execute | HYU-Computer-Architecture/project1/simulator/simulate.c:62-134 | one round of the loop is one step |

## Left out

- TinyMachine: the text of the code file and of the simulator's commands, tracing, and printing; a file is a list of lines with a location and an instruction.
- TinySymbols: the line numbers kept with each name, listings, and type checking; the scanner and the parser, so programs are syntax trees.
- WalCache.BufferCache: the ring is a sequence of buffer numbers, and sleep locks are not modelled; a change of a buffer's data and the write or the log call after it are one operation. Interleavings are covered in `WalProtocol`.
- WalLog.Log.TryBeginOp: sleeping and waking are not modelled; a refused call is tried again.
- WalProtocol.Step: block contents are opaque values; there is one log and one disk. The two conditions that log_write tests before it takes the lock are read at one time, and a process has one buffer at a time; that a commit holds two buffers while it copies a block is left out, so where exactly one is left the panic comes a block later. A commit with no buffer to be had stops there; the panic is a crash before the first write. A write behind the log goes to the disk and is shown; `WalProtocol.CrashAllOrNothing` says nothing of a run after one.
- WalProtocol.ReservationHolds: for runs without blocks that a read maps into a hole and logs without an operation of its own; what one such call does is in `WalOutside`.
- WalProtocol.CrashAllOrNothing: for runs in which no commit writes behind the log region; `WalLimits.AllOrNothingExactly` says for which regions these are all runs.
- RwLock.NeverStuck: says that some thread can move, not that a given one will get in under a scheduler.
- RwLock.Exclusion: wake-ups from elsewhere are not among these steps; with them it is `RwLockLost.ExclusionWithWakeups`.
- RwLock.State: a thread's number is its slot in the process table, and numbers start at 0; that a slot changes hands is not modelled.
- FileBlocks.File: a block is words in one place and bytes in another; that these are the same bytes is not modelled, and no block is used both ways. The bitmap is a sequence of bits. Device files, the log calls and the buffer cache are left out, and the on-disk copy of the inode is the inode.
- FileBlocks.File.Bmap: the steps each tier writes out are one loop over the word numbers it works out.
- FileBlocks.File.FreeBelow: the loops for one, two and three levels are one recursive method.
- Umalloc.Memory.Malloc: the single loop of `malloc`, which goes on after `morecore`, is two rounds of `Search`; 32-bit overflow of sizes is not modelled, and sbrk's answers are parameters.
- Lsrb.Robot.Explore: sensors, motors, timing and bends of the line; mazes are trees. What a log of more than 100 entries overwrites is not modelled; the drive stops there.
- Grep: reading the input in chunks and printing lines.
- Dijkstra: printing; the matrix and the number of vertices are arbitrary, INF is 1000.
- EquivalenceClasses.Classes: allocation failure, printing, and pairs out of range.
- Bpt.Table: pages are values, read and written as a whole; their arrays are sequences, filled and shifted in loops, and copies of whole runs between two pages are slices. Allocation failure in memory is left out, one file is open, and keys have 32 bits.
- Bpt.Table.DbInsert: keys beyond 32 bits, which are stored and then lost with the next split.
- Bpt.Table.Alloc: the free list is a sequence; `DiskSpace` has it as links in the pages.
- PooledTable.DbInsert: the calls that change pages are made of the pool in the order in which the code makes them, with reads of any pages in between instead of its own; the header is written as a whole where the root changes, and pins last for one call.
- BufferPool.Pool: what a page holds is one value; the copying of its fields in both directions is left out. A new file's header page must not be on the disk yet.
- BufferPool.Pool.TakeBuffer: one method for what `get_buffer_index` and `start_table` both write out.
- PagedTables.BufferAllocPage: some buffer has been used before, as by `start_table`; what the buffer of a new page says until it is written does not matter.
- PagedStore.Serve: one table at a time, and a page read is let go of at once; `ReadPage` leaves it pinned.
- Stride.State: the feedback queues, and threads but for whether a slot they leave still counts others, are left out: a process belongs to the heap or to the queues, in which of these `Levels` says, and what happens while one runs are steps of their own. A slot is free for use as soon as its process has exited; that `wait` comes first is not modelled. Each step is one holding of the lock of the process table; `addtick` and `priorityboost` are such steps too. Pass values and ticks have no width, and what the queues measure in ticks is bounded by a parameter.
- StrideFaults.DividesByZero: that the kernel panics then is not modelled; nothing happens any more.
- Scheduler.Scheduler: pass values and ticks are unbounded, where the code has 32 bits; who is first in the queues is a parameter.
- StrideShares.FairShares: for runs that keep pass values near virtual time, all of them with one processor and no ticks set back, and two processes that go on; `StrideLimits.FairExactly` says that there is no such bound otherwise.
- AddressSpaces.Vm: an entry is a frame and flags, a data page one value, and frame numbers stand for addresses; the kernel ranges are parameters. Locks, the limits `kfree` checks, `inituvm`, `loaduvm` and `copyout` are left out.
- AddressSpaces.Vm.AllocUvm: at a page of the range that is mapped already the kernel panics; only that all stays well-formed is said then.
- AddressSpaces.Vm.MapPages: for ranges of kernel addresses; the calls for one user page are `MapPage`, the single round of its loop.
- Lc2k: shifts and masks of fields are arithmetic, addition wraps at 32 bits, and `nor` works bit by bit. Printing is left out; what a program of more than 51 lines overwrites is not modelled, the assembler stops there.
- Lc2kAssembler.Assembler: lines come in fields, numbers have any size, and blanks in front of a number do not occur.
- The C-Minus analyser's listings, the yacc and lex sources, the process and thread life cycle, device drivers, graphics, user interfaces, sorting, stacks, queues, linked lists, chained hashing and tree exercises: output only, hardware, or easy members.
