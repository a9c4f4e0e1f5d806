# Models of the UNIX teaching programs

The repository holds small programs that show how UNIX works: descriptors, directories, signals,
threads, pipes. Most of them only call the kernel and print what it says. This project models the
ones that contain an algorithm or a protocol, with the kernel reduced to a small explicit state,
and proves what these programs are meant to show.

| file | what it models |
|---|---|
| `Options.dfy` | an optional value |
| `Descriptors.dfy` | descriptor tables with the lowest-free-descriptor rule (POSIX.1-2017 System Interfaces, section 2.14) |
| `Dup2.dfy` | `dup2_l`, dup2 rebuilt from dup and close |
| `PopenWorld.dfy`, `Popen.dfy` | who holds which pipe end over all sequences of `popen_l` and `pclose_l`; the two functions themselves |
| `TreeWalk.dfy`, `TreeVisits.dfy`, `TreeCounters.dfy` | `myftw` and `dopath` on one shared path buffer; which files they visit; the counting callback |
| `Quicksort.dfy` | `Qsort` on string pointers, and the order of strcmp |
| `CondVar.dfy` | waiters and a signaller on a condition variable |
| `ForkHandlers.dfy` | fork in a process with threads, with handlers around the copy |
| `SigwaitThread.dfy` | a thread that takes signals with sigwait and wakes the main thread |
| `Signals.dfy` | delivery and nesting of signal handlers (POSIX.1-2017 System Interfaces, section 2.4) |
| `WaitSig.dfy`, `Critical.dfy`, `SigJump.dfy`, `Sleep.dfy`, `SleepTwice.dfy` | five programs that rest on signal masks, sigsuspend and jumps out of handlers |
| `Add2.dfy`, `Coprocess.dfy` | the adding filter, and the request/reply protocol with it over two pipes |
| `SharedOffsets.dfy` | several descriptors writing one file, with private offsets and with O_APPEND |

Code that changes things step by step is a class or a method with loops, proved against a function
that says what it computes. Code whose point is concurrency is a state with a step for each action:
`Enabled` says when an action can happen, `Apply` what it does, and `Run` relates a state to every
state that a sequence of actions leads to. There the theorems hold over all runs, that is for every
interleaving, every moment at which a signal can arrive and every number of threads or writers.

What a reader would not get from one body: the descriptor table after any order of `popen_l` and
`pclose_l`; that the path buffer survives recursion; that no wakeup is lost even though `state` is
set outside the mutex; that both fixed line buffers of the coprocess stay in bounds on any input.
Where a program does not do what it is meant to do, the exact condition is proved:

- the clean-up loop of `dup2_l` (3-fileio/18-dup2/dup2.c:50) stops one element early: when `newfd`
  is at or above the process limit, one duplicate stays open unless no slot was free;
- a failed fork or fdopen in `popen_l` leaves pipe ends open in the parent;
- a command started by `popen_l` loses its own end when a live stream sits on descriptor 0 or 1,
  because the loop over `childpid` (15-ipc/4-popen/popen.c:101-103) closes it after the dup2;
- `sleep2` returns with SIGALRM blocked whenever its handler has jumped, since longjmp leaves the
  mask alone on Linux (10-signal/15-sigsetjmp/sigsetjmp.c:43): it can change its caller's mask if
  and only if SIGALRM is not blocked and there is an alarm, its own or one left over. From this
  follows exactly when a second `sleep2` can sleep for ever; and an alarm left over makes the
  handler jump into a buffer that is not set yet, again under an exact condition;
- the coprocess deadlocks on exactly those inputs that have a line starting with a NUL.

For each of the first, third and last there is a run or a call in which it happens:
`Dup2.LeakExample`, `PopenWorld.StreamOnStdinTakesInput` and `Coprocess.NulDeadlocks`; for `sleep2`
the runs are built in `Sleep.ReturnThroughHandler` and `Sleep.Sleep2CanCrash`.

The comment at 3-fileio/8-sharing/a.c:29-33 gives TITITIantian as the result of the two writers;
it leaves out the newlines that the code writes. The model follows the code.

## Model

| member | source | states |
|---|---|---|
| `Descriptors.FirstFree` | 3-fileio/18-dup2/dup2.c:48 | dup and pipe take the lowest descriptor that is not open |
| `Descriptors.PipeSlots` | 15-ipc/4-popen/popen.c:67 | the two ends of a pipe take the two lowest free descriptors, the read end first |
| `Descriptors.WiredExactly` | 15-ipc/4-popen/popen.c:74-87 | close one end, move the other to 0 or 1 unless it is there already: whatever the numbers, the end is at its place and the rest is as before |
| `Dup2.Process.Dup2L` | 3-fileio/18-dup2/dup2.c:10-67 | it succeeds exactly for an open `oldfd` and a `newfd` below 256 that equals it or is below the limit, and then the table is the old one with `newfd` naming the entry of `oldfd`; what dup returns increases, and on success consists of the free slots below `newfd` and `newfd`; in every case result and table are a closed form; the exit for 256 rounds is never taken |
| `Dup2.Process.DupUpTo` | 3-fileio/18-dup2/dup2.c:47-57 | the dup loop ends before its 256th round; it reaches `newfd` exactly below the limit, and otherwise fails with all slots below the limit taken |
| `Dup2.Process.CloseDown` | 3-fileio/18-dup2/dup2.c:50-51 | the loop closes exactly the descriptors of the array from `stop` on |
| `Dup2.DuplicatesAreFreeSlots` | 3-fileio/18-dup2/dup2.c:47-57 | the duplicates are exactly the free slots below `newfd`, and `newfd` |
| `Dup2.LeakedDuplicate` | 3-fileio/18-dup2/dup2.c:50-51 | after the clean-up with `--i > 0` exactly one duplicate is still open, at the lowest slot that was free |
| `Dup2.KeptDuplicate` | 3-fileio/18-dup2/dup2.c:63-64 | after the clean-up with `--i >= 0` exactly `newfd` is left, naming the entry of `oldfd` |
| `Dup2.AgreesWithDup2` | 3-fileio/18-dup2/dup2.c:6-67 | `dup2_l` gives the result and the table of dup2 if and only if the arguments are not in one of the listed failing cases |
| `Dup2.FailedCallRestores` | 3-fileio/18-dup2/dup2.c:45-53 | for `newfd` at or above the limit the table is the one after close(newfd) if and only if no slot below the limit was free; otherwise it has one more descriptor, naming the entry of `oldfd` |
| `Popen.OnlyReadOrWrite` | 15-ipc/4-popen/popen.c:53-57 | the type test lets through exactly the strings "r" and "w" |
| `Popen.Parent.RunChild` | 15-ipc/4-popen/popen.c:74-103 | the child's edits of its table, with the loop over `childpid`, give the wired table without the descriptors of the older streams |
| `Popen.Parent.PopenL` | 15-ipc/4-popen/popen.c:47-126 | `popen_l` with its array makes exactly the step of the world model and keeps the invariant; for "r" the stream names the read end of a fresh pipe and the command starts with the write end as descriptor 1, for "w" the ends are exchanged and the command's is descriptor 0, unless an older stream sits there; it succeeds exactly if no call fails and the pipe fits below the limit |
| `PopenWorld.PopenEnds` | 15-ipc/4-popen/popen.c:73-124 | the same of the world model's step: which end is where, for each type |
| `Popen.Parent.WaitFor` | 15-ipc/4-popen/popen.c:174-178 | after any number of EINTR returns the child is reaped and its own status returned; -1 only if there is no such child |
| `Popen.Parent.PcloseL` | 15-ipc/4-popen/popen.c:143-179 | a stream that is not from `popen_l` changes nothing and gives -1; otherwise its descriptor and its array element go; after a failing fclose the child stays unreaped, and else it is reaped and its own status returned |
| `Popen.PcloseStepIsEvents` | 15-ipc/4-popen/popen.c:153-178 | that step of `pclose_l` is the event of closing, the child's exit unless it has exited before, and the return from waitpid |
| `PopenWorld.ChildTableExactly` | 15-ipc/4-popen/popen.c:73-103 | the child's table at exec is the parent's table with the command's end at 0 or 1, without the older streams |
| `PopenWorld.ChildHasItsEndIff` | 15-ipc/4-popen/popen.c:76-103 | the command has its end in place if and only if no live stream sits on that descriptor |
| `PopenWorld.StreamOnStdinTakesInput` | 15-ipc/4-popen/popen.c:73-103 | a run in which it does not: a parent without standard input opens a stream for reading, which lands on 0, and the next command gets no input |
| `PopenWorld.ParentTableExactly` | 15-ipc/4-popen/popen.c:113-122 | the parent's table after a success is its old table with the stream's end and nothing else |
| `PopenWorld.StepInv` | 15-ipc/4-popen/popen.c:47-179 | every call, every way in which it can fail, and every step of the commands keeps the invariant about tables, streams, children and pipe ends |
| `PopenWorld.AbandonedInv` | 15-ipc/4-popen/popen.c:159-161 | so does a `pclose_l` whose fclose fails, which closes the stream and gives its child up |
| `PopenWorld.HoldersOfStream` | 15-ipc/4-popen/popen.c:73-125 | over every run, in any order of calls, the parent's end of a live stream's pipe is held by the parent alone, at that descriptor alone, and the command's end only by that command and its descendants |
| `PopenWorld.WaitCannotDeadlock` | 15-ipc/4-popen/popen.c:159-178 | while `pclose_l` waits nobody holds the parent's end, so the reader has end-of-file; the return is enabled or the child is free to exit |
| `PopenWorld.ChildpidIsBijection` | 15-ipc/4-popen/popen.c:124-125 | no two streams share a child; the unreaped children fall apart into those of the streams, the one waited for, and those lost; no more are lost than calls failed in fdopen or fclose, so without such failures streams and unreaped children match one to one |
| `PopenWorld.TableRestored` | 15-ipc/4-popen/popen.c:112-125 | unless fork or fdopen fails the parent's table is always the one it began with plus the live streams' descriptors, so closing all of them in any order restores it, even if an fclose fails |
| `PopenWorld.BaseKept` | 15-ipc/4-popen/popen.c:112-125 | no call changes a descriptor that is not a stream's, unless its fork or fdopen fails |
| `PopenWorld.FailedPopenKeepsTableIff` | 15-ipc/4-popen/popen.c:67-72 | a `popen_l` that returns NULL leaves the table alone if and only if it got no pipe |
| `PopenWorld.StreamKeepsChild` | 15-ipc/4-popen/popen.c:124-125 | until its own `pclose_l` a stream keeps its child, whose status can come only from that child's exit |
| `PopenWorld.PcloseReturnsOwnStatus` | 15-ipc/4-popen/popen.c:153-178 | from a `popen_l` over any calls to the return of the matching `pclose_l`, the status is that of the child this `popen_l` started, with descriptors reused freely |
| `TreeWalk.FinishIsShortestPrefix` | 4-filedir/26-myftw/myftw.c:107-132 | the calls made are the shortest prefix of the full pre-order trace that ends in a nonzero answer, which is returned; all of it and 0 if there is none |
| `TreeWalk.Walker.DoPath` | 4-filedir/26-myftw/myftw.c:91-133 | calls and result are those of the pure walk, cut short; every opendir is matched by a closedir; the buffer holds the entry path again, or that path and a slash on the unreadable-directory exit |
| `TreeWalk.Walker.WalkDirectory` | 4-filedir/26-myftw/myftw.c:117-126 | the readdir loop makes the calls of the listed names in order, skips the two dot entries, stops at a nonzero answer, and leaves everything before the names as it was |
| `TreeWalk.Walker.MyFtw` | 4-filedir/26-myftw/myftw.c:75-84 | the walk starts from the path itself if it fits the buffer, and otherwise from its first `len - 1` bytes |
| `TreeWalk.Walker.Strcpy` | 4-filedir/26-myftw/myftw.c:122 | the name replaces what was behind the slash; nothing before it changes |
| `TreeVisits.VisitedIffReached` | 4-filedir/26-myftw/myftw.c:91-133 | the paths visited are exactly the slash-joined paths of chains of names, each listed in the readable directory before it |
| `TreeVisits.VisitsAreReached` | 4-filedir/26-myftw/myftw.c:99-115 | each call's flag and mode say truly what the path is |
| `TreeVisits.EachPathOnce` | 4-filedir/26-myftw/myftw.c:117-126 | if directories list distinct names without slashes, no path is visited twice |
| `TreeVisits.ListedNames` | 4-filedir/26-myftw/myftw.c:117-122 | in every readable directory reached, exactly the listed names other than the two dot entries are visited |
| `TreeVisits.DirectoriesFirst` | 4-filedir/26-myftw/myftw.c:104-124 | the walk is in pre-order: it begins with its path, and each visit comes after that of its directory |
| `TreeVisits.NamesInOrder` | 4-filedir/26-myftw/myftw.c:117-126 | what lies below one entry is visited before what lies below a later one |
| `TreeVisits.UnreadableIff` | 4-filedir/26-myftw/myftw.c:114-115 | a directory is reported as unreadable, with a slash behind its path, if and only if it is reached and unreadable |
| `TreeVisits.NeedIsLeast` | 4-filedir/26-myftw/myftw.c:110-122 | the buffer length asked for is the least: with a shorter buffer an unstopped walk has a visit whose path, or whose slash, does not fit |
| `TreeVisits.SiblingsApart` | 4-filedir/26-myftw/myftw.c:122 | different names lead to disjoint parts of the hierarchy |
| `TreeCounters.Counters.MyFunc` | 4-filedir/26-myftw/myftw.c:136-177 | each call increments the one counter of its type, or none; it answers 0, and the error arm is taken exactly for a directory reported as a file |
| `TreeCounters.CountersCountNodes` | 4-filedir/26-myftw/myftw.c:136-177 | after a walk the seven counters sum to the number of visits that found something; if directories list distinct names without slashes, that is the number of paths that chains of listed names lead to and whose lstat succeeded |
| `TreeCounters.EachCounterCounts` | 4-filedir/26-myftw/myftw.c:136-177 | each counter on its own: the number of regular files, block and character devices, FIFOs, links and sockets reached, and of directories |
| `TreeCounters.CountFiles` | 4-filedir/26-myftw/myftw.c:40-61 | the program: `myftw` with `myfunc` returns 0, each of the seven counters has the number of files of its own type that are reached, and their sum is the number of all |
| `TreeCounters.MyFuncSeesAll` | 4-filedir/26-myftw/myftw.c:159-176 | a callback that answers 0 sees the whole walk, and the error arm at line 160 is unreachable |
| `Quicksort.StrcmpIsLexicographic` | 1-overview/2-sortls/Qsort.c:15 | strcmp below zero is lexicographic order, zero is equality, and the sign turns with the arguments |
| `Quicksort.AtMostTransitive` | 1-overview/2-sortls/Qsort.c:15 | the order is transitive |
| `Quicksort.Partition` | 1-overview/2-sortls/Qsort.c:12-17 | the scan rearranges the range alone, with everything below the pivot before it and nothing below it behind it, in one strcmp per other element |
| `Quicksort.PartsSorted` | 1-overview/2-sortls/Qsort.c:12-19 | partition and the two recursive calls together sort the range |
| `Quicksort.Qsort` | 1-overview/2-sortls/Qsort.c:6-20 | the range is sorted and a rearrangement of itself, the rest untouched, the empty call changes nothing; between n-1 and n(n-1)/2 strcmp calls, nesting at most n and at least the binary logarithm of n+1 |
| `Quicksort.PairsFormula` | 1-overview/2-sortls/Qsort.c:14-19 | the bound is n(n-1)/2 |
| `Quicksort.SortedIsUnique` | 1-overview/2-sortls/Qsort.c:5-20 | there is one ascending order of the same strings |
| `Quicksort.SortsRangeIsDetermined` | 1-overview/2-sortls/Qsort.c:5-20 | whatever the partitions do, the resulting strings are the same in the same places |
| `CondVar.StepInv` | 11-thread/10-cond/cond.c:23-58 | mutual exclusion; the flag is known to every later test once the signaller has held the mutex; each round leaves one waiter less |
| `CondVar.WaitersAreSafe` | 11-thread/10-cond/cond.c:46-56 | in every reachable state a waiter has passed its loop only if the flag is set, and at most one thread is inside the mutex |
| `CondVar.WaitersLeftAtExit` | 11-thread/10-cond/cond.c:27-40 | with W waiters and S rounds at most max(0, W-S) threads are in the wait set when the signaller has exited |
| `CondVar.StrandedIffTooFewRounds` | 11-thread/10-cond/cond.c:29-40 | a thread can be left asleep for good if and only if S < W |
| `CondVar.TooFewRoundsStrand` | 11-thread/10-cond/cond.c:29-34 | for S < W there is a run that leaves exactly W-S threads asleep |
| `CondVar.SomeStep` | 11-thread/10-cond/cond.c:35-51 | until the signaller has exited some thread can step without an early wakeup |
| `CondVar.EnoughRoundsQuiet` | 11-thread/10-cond/cond.c:35-56 | with S >= W nobody sleeps after the signaller's exit |
| `CondVar.QuietStep` | 11-thread/10-cond/cond.c:157-168 | from then on nobody falls asleep again and every step brings the waiters nearer their end |
| `CondVar.QuietCanStep` | 11-thread/10-cond/cond.c:157-168 | and as long as a waiter is not done some step is enabled |
| `ForkHandlers.PiecesAreDisciplined` | 12-thrctl/9-thrfork/thrfork.c:9-47 | threads built from forks with the handlers and from workers lock in one order and hold both mutexes at each copy |
| `ForkHandlers.ChildrenAreClean` | 12-thrctl/9-thrfork/thrfork.c:24-29 | in every reachable state no child has a mutex of a thread it lacks, and both are free when its fork has returned |
| `ForkHandlers.NoDeadlock` | 12-thrctl/9-thrfork/thrfork.c:9-47 | with any number of threads, while one has steps left, some thread can take one |
| `ForkHandlers.EveryStepIsProgress` | 12-thrctl/9-thrfork/thrfork.c:38-47 | every run ends |
| `ForkHandlers.RunsEndClean` | 12-thrctl/9-thrfork/thrfork.c:17-29 | and then every thread and every child is done and all mutexes are free |
| `ForkHandlers.EveryForkHasItsChild` | 12-thrctl/9-thrfork/thrfork.c:143-152 | and there are as many children as there were forks |
| `ForkHandlers.OneForkPerCall` | 12-thrctl/9-thrfork/thrfork.c:9-47 | a fork with the handlers is both locks, the copy, both unlocks, and brings one child; the worker is one lock and unlock |
| `ForkHandlers.BareForkOrphans` | 12-thrctl/9-thrfork/thrfork.c:126-143 | without the handlers there is a run whose child has a mutex of a nonexistent thread |
| `ForkHandlers.OppositeOrdersDeadlock` | 12-thrctl/9-thrfork/thrfork.c:12-13 | threads that take the two mutexes in opposite orders can block each other for good, so the common order is needed |
| `SigwaitThread.EveryRun` | 12-thrctl/8-thrsig/thrsig.c:24-51 | `main` passes its wait only after sigwait returned SIGQUIT, is not left waiting once the worker has signalled, is never inside the mutex together with it, and has the flag cleared and its mask back at the end |
| `SigwaitThread.AtRestIff` | 12-thrctl/8-thrsig/thrsig.c:140-147 | the program stops if and only if it is done, or waits with no signal to act on |
| `SigwaitThread.AcceptedQuitIsProgress` | 12-thrctl/8-thrsig/thrsig.c:40-45 | from an accepted SIGQUIT on every program step leads `main` nearer its end, whatever SIGINTs and early wakeups came before |
| `Signals.NestedMask` | 10-signal/16-critical/critical.c:78-85 | the mask is the one set by `main` plus one distinct signal for each active handler |
| `Signals.DepthBound` | 10-signal/17-waitsig/waitsig.c:26-32 | no handler is re-entered; handlers nest no deeper than there are handled signals |
| `Signals.DeliverNested` | 10-signal/16-critical/critical.c:78-85 | delivery keeps that nesting |
| `Signals.ReturnNested` | 10-signal/15-sigsetjmp/sigsetjmp.c:165-172 | the return of a handler keeps it and takes its signal out of the mask again |
| `WaitSig.EveryRun` | 10-signal/17-waitsig/waitsig.c:38-52 | whatever arrives and when: SIGQUIT is blocked at every loop test; `main` never sleeps on a flag already set; while it sleeps every pending signal is deliverable; the flag is cleared after the loop, and at the exit the original mask is back |
| `WaitSig.LoopLeftOnlyByQuit` | 10-signal/17-waitsig/waitsig.c:42-43 | the loop is left only after the handler ran for SIGQUIT |
| `WaitSig.QuitEndsLoopIff` | 10-signal/17-waitsig/waitsig.c:12-13 | and it is left: a process that can do nothing more is at its end if and only if the handler ran for SIGQUIT |
| `WaitSig.ToldIsProgress` | 10-signal/17-waitsig/waitsig.c:42-52 | from then on every step of `main` brings it nearer its end, and no other step takes it back |
| `WaitSig.AtRestIff` | 10-signal/17-waitsig/waitsig.c:42-52 | the process stops if and only if it is at its end, or asleep with nothing pending |
| `Critical.EveryRun` | 10-signal/16-critical/critical.c:65-100 | the region runs with SIGINT blocked and pending and no handler above it; in the suspension exactly SIGUSR1 and SIGINT are blocked in the handler; it never sleeps for lack of SIGINT; the masks afterwards are restored |
| `Critical.SuspensionDelivers` | 10-signal/16-critical/critical.c:86-94 | `main` gets past sigsuspend only after SIGINT was delivered in it |
| `Critical.AtRestIff` | 10-signal/16-critical/critical.c:86-101 | the process stops if and only if it is at its end with nothing deliverable, or killed |
| `Critical.KilledIff` | 10-signal/16-critical/critical.c:78-86 | SIGUSR1 can kill it if and only if it is not blocked from the start |
| `SigJump.EveryRun` | 10-signal/15-sigsetjmp/sigsetjmp.c:75-97 | no jump to an environment that was not saved; the mask is the original one plus the active handlers' signals plus those stranded by longjmp; nesting at most three |
| `SigJump.JumpsAndMasks` | 10-signal/15-sigsetjmp/sigsetjmp.c:122-163 | however deep the nesting, siglongjmp brings the saved mask back, and longjmp leaves every handled signal blocked |
| `SigJump.GuardDecides` | 10-signal/15-sigsetjmp/sigsetjmp.c:122-172 | a handler that nothing interrupts sets the alarm, clears its guard and jumps if and only if its guard is set; otherwise it returns and changes nothing |
| `SigJump.JumpReachedIff` | 10-signal/15-sigsetjmp/sigsetjmp.c:126-162 | each of the two jumps can be reached if and only if its signal is not blocked from the start |
| `Sleep.Sleep1CanStick` | 10-signal/8-sleep1/sleep1.c:49-56 | `sleep1` can be paused with no alarm armed and nothing pending, through the gap between alarm and pause |
| `Sleep.Sleep2SticksIff` | 10-signal/9-sleep2/sleep2.c:25-34 | `sleep2` can reach that state if and only if its argument is 0 or SIGALRM is blocked |
| `Sleep.Sleep2CrashesIff` | 10-signal/9-sleep2/sleep2.c:7-29 | its handler can jump into a buffer not yet set if and only if an earlier alarm is outstanding and SIGALRM is not blocked |
| `Sleep.JumpBlocksAlarm` | 10-signal/9-sleep2/sleep2.c:7-10 | from the jump on SIGALRM is blocked; a call that has returned left the mask alone if and only if its handler did not jump, and otherwise left SIGALRM blocked, or SIGALRM and SIGINT |
| `Sleep.Sleep2ChangesMaskIff` | 10-signal/9-sleep2/sleep2.c:25-34 | `sleep2` can return with another mask if and only if SIGALRM is not blocked and its argument is positive or an alarm is outstanding |
| `Sleep.ReturnsIff` | 10-signal/9-sleep2/sleep2.c:25-34 | either sleep can return at all if and only if it can take an alarm or SIGINT |
| `Sleep.ReturnedDisarmed` | 10-signal/9-sleep2/sleep2.c:33 | a call of either sleep that has returned leaves no alarm |
| `Sleep.KilledIff` | 10-signal/9-sleep2/sleep2.c:27 | an alarm left over can kill the process before the handler is set if and only if SIGALRM is not blocked |
| `Sleep.Sleep1KeepsMask` | 10-signal/8-sleep1/sleep1.c:49-56 | `sleep1` returns with the mask it was called with |
| `Sleep.ReturnThroughHandler` | 10-signal/9-sleep2/sleep2.c:25-34 | with SIGALRM not blocked and an alarm of its own or an older one, the call can return through the handler, with SIGALRM added to the mask |
| `SleepTwice.SecondSleepCanStick` | 10-signal/9-sleep2/sleep2.c:25-34 | after a call that has returned, the next one can sleep for ever if and only if the handler had jumped, SIGALRM was blocked from the start, or its argument is 0 and no SIGALRM is pending |
| `SleepTwice.SecondSleepCrashesIff` | 10-signal/9-sleep2/sleep2.c:33 | as the first call turned its alarm off, the next one's handler can jump into a buffer not yet set only for a SIGALRM that the first left pending and not blocked |
| `SleepTwice.SecondSleepSticksIff` | 10-signal/9-sleep2/sleep2.c:25-34 | two calls in a row, the second with the mask, the alarm and the pending signals that the first left: the second can sleep for ever if and only if the first can take an alarm, or SIGINT can end the first and the second could get stuck as a first call |
| `Add2.ScanDecimal` | 15-ipc/6-copro/add2.c:45 | the scan reads back the decimal of any integer, after blanks and up to a nondigit |
| `Add2.ScanNumeral` | 15-ipc/6-copro/add2.c:45 | blanks, a sign or none, and a numeral up to a nondigit are scanned as the number it spells |
| `Add2.ValueByPlace` | 15-ipc/6-copro/add2.c:45 | a numeral's value by digits and places |
| `Add2.DecimalSpells` | 15-ipc/6-copro/add2.c:46 | a decimal is the numeral without leading zeros that has the right value, behind a minus sign if it is negative |
| `Add2.ComplaintIff` | 15-ipc/6-copro/add2.c:45-54 | the reply is the complaint if and only if the line cannot be cut into blanks, sign, longest numeral, twice over, and a rest |
| `Add2.ReplyToCut` | 15-ipc/6-copro/add2.c:45-47 | otherwise it is the decimal of the sum of those two numbers, if they and the sum are ints |
| `Add2.ReplyAdds` | 15-ipc/6-copro/add2.c:45-47 | for ints whose sum is an int, the reply to their decimals is the decimal of the sum |
| `Add2.ReplyIsShort` | 15-ipc/6-copro/add2.c:46-54 | every reply, the complaint included, is 2 to 13 characters without a NUL |
| `Coprocess.LinesCutInput` | 15-ipc/6-copro/copro.c:53 | the pieces that fgets returns are the input, cut exactly behind each newline and where a piece fills the buffer |
| `Coprocess.Lines` | 15-ipc/6-copro/copro.c:53 | each piece is nonempty and leaves room for its NUL |
| `Coprocess.StepInv` | 15-ipc/6-copro/copro.c:53-73 | every step of either side keeps the lock step of requests and replies |
| `Coprocess.EveryRun` | 15-ipc/6-copro/copro.c:53-73 | on any input: neither `line[n]` write is out of bounds; at most one message is in transit and a pipe holds it whole; the i-th reply printed answers the i-th line |
| `Coprocess.ChildReadInv` | 15-ipc/6-copro/add2.c:43-44 | the child's read takes exactly one whole request, and its buffer then holds it as a C string |
| `Coprocess.RunsEnd` | 15-ipc/6-copro/copro.c:53-74 | every run is finite |
| `Coprocess.AtRestIff` | 15-ipc/6-copro/copro.c:53-74 | the two stop if and only if both are done, or both are blocked reading empty pipes |
| `Coprocess.EmptyMessageBlocks` | 15-ipc/6-copro/copro.c:54-59 | such a deadlock comes right after a line that starts with a NUL, and a parent that is done has seen no such line |
| `Coprocess.RestIsDeadlockIff` | 15-ipc/6-copro/copro.c:54-59 | a finished run is deadlocked if some line starts with a NUL, and otherwise has all lines answered |
| `Coprocess.DeadlockIff` | 15-ipc/6-copro/copro.c:54-59 | a deadlock is reachable if and only if some line starts with a NUL |
| `Coprocess.Wiring` | 15-ipc/6-copro/copro.c:80-96 | whatever was open before, add2 starts with its two ends as 0 and 1 and all else unchanged, and the parent keeps the two others |
| `Coprocess.EndsApart` | 15-ipc/6-copro/copro.c:51-82 | no pipe end is held on both sides, so each side sees end-of-file when the other is gone |
| `SharedOffsets.OpenFile.Write` | 3-fileio/8-sharing/a.c:57-61 | write puts the record at the descriptor's own offset, or at the end with O_APPEND, and moves that offset alone |
| `SharedOffsets.OverlayBytes` | 3-fileio/8-sharing/a.c:57-61 | byte by byte: what the write covers is the record's, the rest is as before, and the file grows only if the write ends beyond it |
| `SharedOffsets.WriteThroughBoth` | 3-fileio/8-sharing/a.c:48-65 | n rounds through two descriptors give the second stream, then the rest of the first stream, then what the file had beyond it |
| `SharedOffsets.MixedRound` | 3-fileio/8-sharing/a.c:56-65 | one round takes the file of i rounds to that of i+1 |
| `SharedOffsets.AppendIsShuffle` | 3-fileio/9-atomic/a.c:17-28 | with O_APPEND, in every interleaving of any writers, the file is the records of the history in order, each writer's own in program order, and as long as all bytes together |
| `SharedOffsets.HistoryIsSchedule` | 3-fileio/9-atomic/b.c:21-27 | the history has exactly the writes of the interleaving, in its order |
| `SharedOffsets.LastWriteWins` | 3-fileio/8-sharing/b.c:16-22 | with private offsets the file is as long as the longest writer's total, and each byte is that of the last write covering it |

## Left out

- Real time, printed text, and the programs that are executed: an alarm or a timeout may come at any moment; a command may close, duplicate and open what it likes, fork, and exit.
- Failing calls that the programs answer by printing and exiting (sigaction, sigprocmask, pthread_create, write errors in the writers and in the coprocess).
- `Popen.Parent.PopenL`: `maxfd` is the process limit; the guess of 256 for a system without a definite limit is not part of this model.
- `Popen.Parent.PcloseL`: a program that reaps the child itself is modelled only in `WaitFor`, which then gives -1; whether fork, fdopen, calloc or fclose fails is a parameter, and the child is taken to exit while `pclose_l` waits.
- `PopenWorld.TableRestored`: excludes runs in which fork or fdopen fails; that leaves descriptors open, by `FailedPopenKeepsTableIff`. A program that closes a stream's descriptor behind the back of `popen_l` is not modelled.
- `Dup2.Process.Dup2L`: a close interrupted by a signal is not modelled, nor the error number.
- `Quicksort.Qsort`: indices are unbounded, so the overflow of `left+right` for huge arrays is not modelled; pointers to strings that overlap or change during the sort are not either.
- `TreeWalk.Walker.DoPath`: the file system does not change during the walk; opendir fails only for unreadable directories, not for lack of descriptors, and readdir has no errors. The buffer must be long enough for the deepest path, exactly by `TreeVisits.NeedIsLeast`; the code does not check that, and what it does beyond the buffer is not modelled. A callback answers from the calls made so far and does not touch the buffer.
- `TreeCounters.CountFiles`: the calls of `myfunc` are made after the walk, in its order; in the program each is made at its visit. The percentages are not modelled.
- `TreeWalk.Walker.MyFtw`: the length is a parameter; the computation of it in 4-filedir/26-myftw/pathname.c is not modelled.
- `CondVar.StepInv`: memory is sequentially consistent, so the store to `state` outside the mutex is one step that all threads see at once; each waiter may time out, though in the program only the main thread can.
- `ForkHandlers.ChildrenAreClean`: the thread that only pauses takes no step; fork does not fail; only the two mutexes of the program are modelled.
- `SleepTwice.SecondSleepSticksIff`: the unslept seconds that the functions return are not modelled, nor what happens between and after the calls; the interrupted handler that `sleep2` aborts is any nesting of SIGINT and SIGALRM handlers.
- `SigJump.EveryRun`: the busy loops in the handlers are one step; signals without handlers are modelled only in `Critical`, where SIGUSR1 ends the process.
- `Coprocess.EveryRun`: a write of at most 1023 bytes into an empty pipe is whole, and a read takes what there is, up to 1024 bytes; both are what pipes do below PIPE_BUF. A child that dies and the SIGPIPE handler are not modelled.
- `Add2.ReplyAdds`: the reply to numbers outside the range of int, for which C promises nothing, is taken to wrap around.
- `SharedOffsets.LastWriteWins`: short writes and write errors are not modelled; each write is atomic.
- The alternative loop of add2 over standard I/O (15-ipc/6-copro/add2.c:11-41), which is compiled out.
- Sockets, record locks, message queues, shared memory, select, terminals and pseudo terminals: the state that matters is the kernel's, and the programs are wrappers around single calls.
- `daemonize`, `set_fl`, `open_max`, `path_alloc`, `getenv_r_l` and the other short helpers: they would add only easy members.
