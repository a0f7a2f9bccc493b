# Verified models of an operating-systems course repository

The repository holds small systems programs: a process-tree printer, concurrency exercises, a
model checker, pieces of the xv6 kernel, toy schedulers, a coroutine library and a system-call
profiler. This project models the ones with real invariants and proves what they are for.
`dafny verify dfyconfig.toml` checks everything.

* **pstree** (`ProcForest`, `Pstree`, `PstreeText`, `PstreePrint`, `PstreeLines`, `PstreeMain`, `UserNames`). The
  array of process records is linked, marked, pruned in place and printed by the same loops and
  recursion as in C. The field `print` is called `shown` here, because `print` is a Dafny keyword.
  The end result is about the text: which processes it shows, at which depth, in which order, and
  that the tree can be read back from it.
* **The bracket monitor** (`BracketMonitor`, `BracketProtocol`, `BracketGrammar`, `BracketWaking`). The critical sections are methods
  of a class over the C globals; the protocol is a transition system over the same functions, with
  any number of threads, any interleaving, broadcasts to one of two condition variables, and
  spurious wake-ups.
* **The interleaving enumerator** (`Interleavings`, `InterleavingTheory`, `RacyCounter`, `RacyResults`). The loops
  build a list of schedules; the theory says which schedules, how many, and how often each. The
  racy counter is what the schedules are run on.
* **xv6 exec** (`ExecStack`, `Exec`), byte by byte with 32-bit wrap-around, and the books on every
  resource it takes.
* **The xv6 spinlock** (`Spinlock`, `SpinlockCalls`): every shared-memory access of acquire, release and holding is a
  step of its own; any number of CPUs and locks.
* **The schedulers** (`Scheduler`): the ring scan and the pointer scan, and every run of interrupts.
* **The coroutine chooser** (`RandChoose`) and **the profile list** (`Sperf`): linked lists on the heap.

Where the expected property is false of the code:

* The schedule builder may list a schedule twice. It does so exactly when an operation belongs to
  two threads (`InterleavingTheory.DuplicateFree`, with `InterleavingTheory.TwoTimes` for the
  failing family); as a list of merges it is always exact and has multinomial length. The counter
  program is on the good side (`RacyCounter.SchedulesDistinct`).
* In the bracket monitor a thread that would be admitted may be left asleep, because openers wake
  only closers and closers only openers. Nobody is ever left asleep exactly when at most one thread
  opens brackets and at most one thread closes what it opens (`BracketWaking.OversleepsUnlessOnePair`,
  with the failing runs in `BracketWaking.TwoOpeners` and `BracketWaking.TwoClosers`). For the roles of
  the program this fails (`BracketWaking.ProgramRoles`), and what holds is that another thread is awake (`BracketProtocol.NoDeadlock`).
* A remembered user name is cut to eight characters. The answer is that of the direct lookup exactly
  under the condition in `UserNames.NameCache.NameOf`; `UserNames.LongNameIsCut` and
  `UserNames.AskTwice` give a user for whom the second answer differs.
* exec refuses a loadable program header that ends at address 0 when no earlier one has taken room,
  even if every call succeeds, because allocuvm reports failure by returning 0 (`Exec.EmptySegment`).
  `Exec.Kernel.LoadProgram` gives the exact condition for all header lists.
* Interrupts can be on under a lock that is held, if clients of pushcli and popcli pop more than they
  pushed (`Spinlock.OverPoppedOwner`). On a CPU that is in no call they can be on exactly when pushes
  minus pops plus recorded locks is 0 (`Spinlock.InterruptsPossible`); the popcli that turns them on is
  exactly the one called at 1 with the saved flag on (`Spinlock.PopTurnsOn`); inside a call the
  condition is `Spinlock.InterruptsInCall`.

## Model

| member | source | states |
|---|---|---|
| `PstreeMain.PrintsExactly` | tree/pstree_source_code.c:614-756 | For every table without parent cycles and every shown root, the text has one line for each shown descendant less than `limit` levels down and no other, each process once, in preorder; line k shows the depth and the pid of the k-th of them and everything else stated by `LinesTell` |
| `PstreeMain.LinesTell` | tree/pstree_source_code.c:713-733 | In each line, the column of each ancestor but the root has a bar exactly when a shown sister of it follows; its own connector is a bar or a backslash by the same rule; the second sign is '+' exactly when it has a shown child, the third '=' exactly when pid and pgid agree; then come the pid in at least five places, the name, the number of threads in brackets if above 1, and the command |
| `PstreeMain.ShownMeans` | tree/pstree_source_code.c:647-652 | Shown are exactly the relatives of processes with the name asked for, of anybody but root, with the pid asked for, or with the text asked for in the command, or everything |
| `PstreeMain.NothingPrinted` | tree/pstree_source_code.c:705-706 | The text is empty exactly for an unknown pid or a hidden process |
| `PstreeMain.TextInOrder` | tree/pstree_source_code.c:932-938 | The texts of several pids are printed in the order of the pids |
| `PstreeMain.PrintingCanBeUndone` | tree/pstree_source_code.c:700-756 | A reader that sees only the text rebuilds the whole tree that was printed, cyclic tables included |
| `PstreeMain.Run` | tree/pstree_source_code.c:926-938 | Linking, marking, dropping and printing in a row put out, for each requested pid, exactly the lines of its visible tree |
| `PstreeMain.Prepare` | tree/pstree_source_code.c:926-928 | The three stages keep every field that was read, mark exactly the shown set and leave exactly its child lists |
| `PstreeMain.LinesShowEntries` | tree/pstree_source_code.c:713-733 | Each line determines the depth and the pid of the process it was printed for |
| `PstreePrint.Printer.PrintTree` | tree/pstree_source_code.c:700-756 | Recursion with the depth counter prints the text of the pruned subtree below the remaining depth, and leaves the counter as it found it |
| `PstreePrint.Printer.PrintChildren` | tree/pstree_source_code.c:750-752 | The loop over the sister links prints the children's texts one after the other |
| `PstreePrint.BelowTextIsForest` | tree/pstree_source_code.c:700-756 | What the recursion prints is the rendering of the forest below the process |
| `PstreeLines.TreeIsLines` | tree/pstree_source_code.c:700-756 | What the recursion prints is, for each process of the preorder, a line that depends only on that process and its ancestors |
| `PstreeLines.HeadColumns` | tree/pstree_source_code.c:730-733 | Column by column, what the head of a line holds for each ancestor |
| `PstreeLines.ProcBodyTells` | tree/pstree_source_code.c:707-723 | Signs, pid, name, threads and command stand in the body in that order |
| `PstreeText.TextRoundTrip` | tree/pstree_source_code.c:713-733 | Reading the lines of any tree of bodies gives the tree back |
| `PstreeText.RowsRoundTrip` | tree/pstree_source_code.c:730-752 | Depths and bodies in preorder determine a forest, and the reader stops where it ends |
| `PstreeText.DecodeForest` | tree/pstree_source_code.c:713-733 | Every line of a printed forest, taken alone, tells the depth it was printed at and its body |
| `PstreeText.NextHeadAt` | tree/pstree_source_code.c:730-733 | A head at depth d, of length 0 or 2d - 1 and made of blanks and bars, is followed by one of that form at depth d + 1 |
| `PstreeText.LineShows` | tree/pstree_source_code.c:713-724 | Behind such a head, the first dash marks the depth and the body |
| `PstreeText.BodyShowsPid` | tree/pstree_source_code.c:713-724 | The pid can be read from the five-column field of the body, negative or long ones too |
| `PstreeText.BodyReadBack` | tree/pstree_source_code.c:713-723 | Pid, name, number of threads and command are read back from the body if the name has no blank |
| `PstreeText.PidIsFiveWide` | tree/pstree_source_code.c:714-720 | The pid takes at least five places and has no zeros in front beyond that |
| `Pstree.MakeTree` | tree/pstree_source_code.c:614-632 | For any table, cyclic or with repeated pids, parent, first child and sister links become those of the child lists of the looked-up parents, and no other field changes |
| `Pstree.ChildListsExact` | tree/pstree_source_code.c:606-632 | Following the links from p meets exactly the other processes whose ppid is looked up as p, in strictly increasing order |
| `Pstree.LastChild` | tree/pstree_source_code.c:626-628 | The tail search ends at the last process of the list so far, because sister links only go up |
| `Pstree.GetPidIndex` | tree/pstree_source_code.c:606-610 | The last process with the pid, or -1 when there is none |
| `Pstree.MarkChildren` | tree/pstree_source_code.c:634-639 | Marks the process and all its descendants and nothing else |
| `Pstree.MarkParents` | tree/pstree_source_code.c:657-660 | Marks the proper ancestors and nothing else |
| `Pstree.MarkProcs` | tree/pstree_source_code.c:641-664 | Marks exactly the ancestors, descendants and members of the selected set, or everything with showall |
| `Pstree.ShownClosedUp` | tree/pstree_source_code.c:641-664 | The shown set is closed under parent: nothing shown is cut off from its root, on cyclic tables too |
| `Pstree.SkipHidden` | tree/pstree_source_code.c:688-696 | Skipping along links already partly rewritten still finds the next shown process of the original list |
| `Pstree.DropProcs` | tree/pstree_source_code.c:685-698 | Rewriting links in place gives every shown process the links of the visible part and touches nothing else |
| `Pstree.PrunedWalk` | tree/pstree_source_code.c:685-698 | Afterwards the child list of a shown process is its original list filtered by the marks, in the same order |
| `ProcForest.PreorderExact` | tree/pstree_source_code.c:700-756 | The preorder of a depth-limited subtree holds exactly the processes whose d-th ancestor is the root, at depth d |
| `ProcForest.PreorderDistinct` | tree/pstree_source_code.c:700-756 | No process is met twice at one depth, whatever the links are |
| `ProcForest.PrintedExactly` | tree/pstree_source_code.c:685-756 | In an upward-closed set without cycles, pruning changes no depth and loses no shown descendant |
| `ProcForest.ChainBound` | tree/pstree_source_code.c:657-660 | Without cycles an upward walk is shorter than the table |
| `ProcForest.MaskedKids` | tree/pstree_source_code.c:685-698 | Child lists after hiding are the child lists filtered |
| `UserNames.NameCache.NameOf` | tree/pstree_source_code.c:230-268 | A miss answers the direct lookup clipped to len - 1, a hit its eight-character prefix; the two agree exactly when the user was not asked for early, the name has at most eight characters or the buffer shows no more |
| `UserNames.KnownExact` | tree/pstree_source_code.c:245-263 | After any calls the remembered uids are distinct, at most 128, and exactly those first asked for when fewer than 128 different ones had been |
| `UserNames.UnknownUser` | tree/pstree_source_code.c:255-258 | The name of a uid the database does not know is '#' and a number that reads back as the signed 32-bit value |
| `UserNames.LongNameIsCut` | tree/pstree_source_code.c:257-267 | A nine-character name is cut on its second lookup although the buffer would hold it |
| `UserNames.AskTwice` | tree/pstree_source_code.c:230-268 | Two calls with the same uid and buffer return different names |
| `BracketProtocol.OutputIsSafe` | multi-threads/brac.c:97-157 | In every state of every run of any number of threads the brackets printed so far begin a balanced word, by its grammar, of depth at most 4 with no square bracket opened inside a round one |
| `BracketGrammar.AdmitsExactly` | multi-threads/brac.c:37-112 | In every reachable state with a free quota, a bracket is admitted if and only if some word of the grammar, at most 4 deep, goes on with it |
| `BracketGrammar.EveryBeginningIsPrinted` | multi-threads/brac.c:97-157 | With a thread for each bracket, every beginning of such a word is printed by some run |
| `BracketGrammar.PrintedExactly` | multi-threads/brac.c:97-157 | With a thread for each bracket, the bracket texts of all runs are exactly the beginnings of words |
| `BracketGrammar.WordReplays` | multi-threads/brac.c:20-72 | Every word that fits leaves the stack of open brackets as it found it |
| `BracketProtocol.BufferIsStack` | multi-threads/brac.c:117-144 | count is always the length of buff, and buff is the stack of unmatched brackets whenever nobody is between brac_before and brac_after |
| `BracketProtocol.HoldersAreAlone` | multi-threads/brac.c:97-144 | At most one bracket thread is between brac_before and brac_after, and its next step is possible |
| `BracketProtocol.NoDeadlock` | multi-threads/brac.c:97-144 | In every reachable state some thread holds the quota, or some thread that would be admitted is awake |
| `BracketProtocol.AnotherBracket` | multi-threads/brac.c:97-157 | From every reachable state at most three steps, none a spurious wake-up, print another bracket |
| `BracketWaking.OversleepsUnlessOnePair` | multi-threads/brac.c:97-144 | In every state of every run all bracket threads that would be admitted are awake, if and only if at most one thread opens and at most one thread closes what it opens |
| `BracketWaking.TwoOpeners` | multi-threads/brac.c:117-131 | Any two openers, of either kind, have a run that leaves one asleep although it would be admitted |
| `BracketWaking.TwoClosers` | multi-threads/brac.c:133-140 | Any two closers of one opener have such a run too |
| `BracketWaking.ProgramRoles` | multi-threads/brac.c:146-149 | The role string of the program has all four brackets and is one where a thread can be left asleep |
| `BracketWaking.BracketIsForced` | multi-threads/brac.c:97-157 | From every reachable state, under any scheduling, more than 2n + 1 actions of the bracket threads among n threads, plus one for each spurious wake-up, include the printing of a bracket |
| `BracketWaking.SlackStep` | multi-threads/brac.c:97-144 | Every test and every brac_after uses up a bounded slack, and a wake-up gives back at most one |
| `BracketProtocol.StepInv` | multi-threads/brac.c:97-157 | Every step of every thread keeps the invariant on quota, buffer, text and wake-ups |
| `BracketProtocol.RunInv` | multi-threads/brac.c:97-157 | The invariant holds in every state of every run |
| `BracketProtocol.ReplayedIsPrefix` | multi-threads/brac.c:20-35 | A text that can be replayed on the stack, completed by its closing brackets, is derived by the grammar |
| `BracketMonitor.StatesExact` | multi-threads/brac.c:20-35 | The table lists every nonempty allowed buffer and nothing else |
| `BracketMonitor.Monitor.TestProducer` | multi-threads/brac.c:37-54 | True exactly when the buffer with the bracket appended is allowed |
| `BracketMonitor.Monitor.TestConsumer` | multi-threads/brac.c:56-72 | True exactly when the bracket closes the last open one |
| `BracketMonitor.Monitor.TryBefore` | multi-threads/brac.c:97-115 | Takes the quota exactly when the role is admitted, otherwise changes nothing |
| `BracketMonitor.Monitor.After` | multi-threads/brac.c:117-144 | Appends the opener or removes the last bracket in the NUL-terminated array, and gives the quota back |
| `Interleavings.Schedules` | multi-threads/trivial-model-checker.py:12-22 | The nested loops compute the schedule list that the lemmas below are about |
| `Interleavings.Insert` | multi-threads/trivial-model-checker.py:17-20 | Distributing the operations over the slots weaves them into the schedule at the chosen positions |
| `Interleavings.CombosExact` | multi-threads/trivial-model-checker.py:15 | The position choices are exactly the non-decreasing ones in range |
| `Interleavings.CombosDistinct` | multi-threads/trivial-model-checker.py:15 | No position choice comes up twice |
| `Interleavings.CombosAscend` | multi-threads/trivial-model-checker.py:15 | The position choices come in increasing lexicographic order |
| `Interleavings.ExtendInOrder` | multi-threads/trivial-model-checker.py:15-21 | The schedules come ordered by the choice of positions, then by the schedule extended |
| `InterleavingTheory.BuildExact` | multi-threads/trivial-model-checker.py:12-22 | For any lists of operations, a sequence is built if and only if it is an interleaving that keeps each list's own order |
| `InterleavingTheory.TaggedDistinct` | multi-threads/trivial-model-checker.py:12-22 | With operations told apart by thread, every merge is built once |
| `InterleavingTheory.DuplicateFree` | multi-threads/trivial-model-checker.py:12-22 | No schedule appears twice if and only if no operation belongs to two threads |
| `InterleavingTheory.TwoTimes` | multi-threads/trivial-model-checker.py:12-22 | A shared operation makes some schedule appear twice |
| `InterleavingTheory.BuildCount` | multi-threads/trivial-model-checker.py:24 | The number of schedules is the multinomial coefficient of the list lengths |
| `InterleavingTheory.WeaveOfSplit` | multi-threads/trivial-model-checker.py:17-20 | Splitting any schedule by a thread and weaving it again gives it back |
| `InterleavingTheory.SplitOfWeave` | multi-threads/trivial-model-checker.py:17-20 | A weave determines its operations, positions and remaining schedule |
| `RacyCounter.CounterBounds` | multi-threads/trivial-model-checker.py:5-28 | Any number of threads with at least two rounds each: every schedule ends with 2 <= x <= total rounds |
| `RacyCounter.UpperBoundReached` | multi-threads/trivial-model-checker.py:5-28 | Some schedule counts every increment, for every number of threads and rounds |
| `RacyCounter.LowerBoundReached` | multi-threads/trivial-model-checker.py:5-28 | With two threads or more, of any positive lengths, some schedule ends with x = 2 |
| `RacyCounter.SchedulesDistinct` | multi-threads/trivial-model-checker.py:6-22 | The counter program's schedules are all different |
| `RacyResults.ResultsExact` | multi-threads/trivial-model-checker.py:5-28 | For two or more threads with positive round counts, v is the result of some schedule if and only if it lies between 2, or 1 if some thread has a single round, and the total number of rounds |
| `RacyResults.EveryResult` | multi-threads/trivial-model-checker.py:5-28 | A schedule for every value from 2 to the total |
| `RacyResults.OneReached` | multi-threads/trivial-model-checker.py:5-28 | A thread with a single round can overwrite all other increments |
| `Exec.Kernel.Exec` | xv6-exec.c:10-114 | Succeeds exactly when the file is a program whose headers are loadable and the stack pages can be had and hold the arguments; one end_op for the begin_op and one release for a locked inode on every path; the new directory installed and the old one freed once, or the new one freed once and the process unchanged |
| `Exec.Kernel.LoadImage` | xv6-exec.c:22-61 | Books of the first part, failures in any iteration of the loop included |
| `Exec.Kernel.LoadProgram` | xv6-exec.c:41-58 | Gets through if and only if every header can be read, every loadable one is page aligned, holds its bytes, ends below the kernel and is answered well, and none that ends at 0 comes before the first that takes room; the size is then the largest end |
| `Exec.SizeOf` | xv6-exec.c:52-53 | An upper bound of all ends that is 0 or one of them |
| `Exec.LoadableSnoc` | xv6-exec.c:43-58 | The loop's view of one header with the size so far agrees with the condition on the whole list |
| `Exec.EmptySegment` | xv6-exec.c:52-53 | Any good header ending at 0 is accepted exactly when an earlier segment has taken room |
| `Exec.Kernel.Start` | xv6-exec.c:63-113 | From the loaded program on: the new image with its stack at the one place above the program, and the old directory freed, or the new directory freed and the process unchanged |
| `Exec.StackEndIs` | xv6-exec.c:63-68 | The stack pages can be had exactly when allocuvm succeeds and the page-aligned end two pages above the program is below the kernel, and that is where they end |
| `Exec.ProgramBelowStack` | xv6-exec.c:63-68 | Every loaded segment ends at or below the guard page, and the largest less than a page below it |
| `Exec.Kernel.Bad` | xv6-exec.c:106-113 | Frees the new directory once if there is one, releases the inode once if it is held |
| `Exec.Kernel.Commit` | xv6-exec.c:90-104 | Installs the image, frees the old directory once and keeps the truncated base name |
| `Exec.BaseName` | xv6-exec.c:91-93 | What follows the last slash |
| `ExecStack.BuildStack` | xv6-exec.c:69-88 | Succeeds if and only if there are at most MAXARG arguments and everything fits the one page; then the stack is ready and reading it back gives the arguments |
| `ExecStack.SpAfterIs` | xv6-exec.c:75 | The strings take exactly their lengths with the NUL, each rounded up to whole words |
| `ExecStack.ArgsRoundTrip` | xv6-exec.c:71-88 | From the finished stack argc and every string are recovered |
| `ExecStack.PushStrings` | xv6-exec.c:71-79 | The strings lie 4-aligned, NUL-terminated, pairwise disjoint and descending inside the stack page |
| `ExecStack.PushVector` | xv6-exec.c:80-88 | Fake return address, argc, argv = sp + 12 and the null-terminated vector lie below the strings, or the page is too small |
| `ExecStack.StaysInPage` | xv6-exec.c:75-77 | With 32-bit wrap-around, a range copyout accepts cannot jump over the guard page |
| `Spinlock.MutualExclusion` | multi-threads/spinlock-xv6.c:22-66 | In every run at most one CPU is between a successful xchg and the clearing store of a lock |
| `SpinlockCalls.AcquireTakes` | multi-threads/spinlock-xv6.c:22-41 | From every reachable state, acquire of a free lock ends after four steps of the caller: it owns the lock, has one disable more, and no other lock or CPU has changed |
| `SpinlockCalls.ReleaseFrees` | multi-threads/spinlock-xv6.c:44-66 | From every reachable state, release by the owner ends after six steps: the lock is free, no other lock or CPU has changed, and the caller has one disable less, or has panicked if its sum of pushes and locks was 0 |
| `SpinlockCalls.HoldingAnswers` | multi-threads/spinlock-xv6.c:87-95 | holding comes to the answer whether the caller owns the lock and leaves locks, count and interrupts as they were |
| `SpinlockCalls.AcquireTwicePanics` | multi-threads/spinlock-xv6.c:26-27 | acquire by the owner panics and changes no lock |
| `SpinlockCalls.ReleaseUnownedPanics` | multi-threads/spinlock-xv6.c:47-48 | release by anybody else panics and changes no lock |
| `SpinlockCalls.CallsEnd` | multi-threads/spinlock-xv6.c:22-95 | Under any interleaving a call that has not come back or panicked has made at most five own steps, not counting turns of the spin loop on a taken lock |
| `SpinlockCalls.CallsGoOn` | multi-threads/spinlock-xv6.c:22-95 | A call that has not come back always has a next step |
| `Spinlock.HoldingIsExact` | multi-threads/spinlock-xv6.c:87-95 | holding answers yes exactly to the CPU that owns the lock, though it reads two words while others write |
| `Spinlock.InterruptsOff` | multi-threads/spinlock-xv6.c:22-66 | A CPU that owns any lock has interrupts off while pushes minus pops, recorded locks and the disables of the call in progress add up to more than 0; they do unless clients popped more than they pushed |
| `Spinlock.InterruptsPossible` | multi-threads/spinlock-xv6.c:98-123 | In a reachable state whose CPU is in no call, that CPU's interrupts can be on if and only if pushes minus pops plus recorded locks is 0 |
| `Spinlock.InterruptsInCall` | multi-threads/spinlock-xv6.c:22-123 | Inside a call interrupts are on if and only if that sum and the call's own disables come to 0 and the saved flag is on |
| `Spinlock.PopTurnsOn` | multi-threads/spinlock-xv6.c:114-123 | A client's popcli turns interrupts on if and only if the sum is 1 and the saved flag is on |
| `Spinlock.OverPoppedOwner` | multi-threads/spinlock-xv6.c:114-123 | A run where one pop too many turns interrupts on under a held lock |
| `Spinlock.OnlyClientsPanic` | multi-threads/spinlock-xv6.c:22-123 | A CPU stops only for acquiring a lock it owns, releasing a lock it does not own, or a popcli past a sum of 0 |
| `Spinlock.PopPanicsNow` | multi-threads/spinlock-xv6.c:114-123 | A client's popcli panics if and only if pushes minus pops plus recorded locks is 0 |
| `Spinlock.PanicsIffOverPopped` | multi-threads/spinlock-xv6.c:98-123 | A CPU in no call has panicked in popcli if and only if pushes minus pops plus recorded locks is negative |
| `Spinlock.FlagRestored` | multi-threads/spinlock-xv6.c:98-123 | When ncli returns to 0 the interrupt flag is what the outermost pushcli saw, in any order of releases, pushes and pops |
| `Spinlock.StepInv` | multi-threads/spinlock-xv6.c:22-123 | Every step of every CPU, client pushes and pops included, keeps: ncli counts held locks, pending disables and client pushes, and a lock is taken exactly when one CPU owns it |
| `Spinlock.RunInv` | multi-threads/spinlock-xv6.c:22-123 | The invariant holds in every state of every run |
| `Scheduler.ScanRing` | multi-threads/thread-os-mp.c:47-49 | The ring scan ends, at i + ncpu if that is a task, else at the CPU's first task |
| `Scheduler.ScanArray` | multi-threads/trivial-os.c:40-44 | The pointer scan ends at the same task |
| `Scheduler.RingOs.OnInterrupt` | multi-threads/thread-os-mp.c:41-51 | Saves the context in the interrupted task and moves this CPU only |
| `Scheduler.ArrayOs.Schedule` | multi-threads/trivial-os.c:37-46 | Refines the same transition |
| `Scheduler.NoSharing` | multi-threads/thread-os-mp.c:41-51 | After any interrupts no task is current on two CPUs |
| `Scheduler.ResumesWhereLeft` | multi-threads/thread-os-mp.c:41-51 | Over any run, the interrupt that starts a task returns the context found by the last interrupt of that task up to then, or its first context if there was none |
| `Scheduler.RoundRobin` | multi-threads/thread-os-mp.c:41-51 | In any run with as many interrupts on a started CPU as it has tasks, each of its tasks is started by exactly one of them |
| `Scheduler.FirstStart` | multi-threads/thread-os-mp.c:42-49 | In any run the first interrupt on CPU 0 starts task ncpu, or task 0 if there is none, and the first one on another CPU the task with its number |
| `Scheduler.CpusAreIndependent` | multi-threads/thread-os-mp.c:41-51 | What a CPU runs depends only on its own number of interrupts |
| `Scheduler.EachOnce` | multi-threads/trivial-os.c:37-46 | Within one round every task of the CPU comes up at exactly one step |
| `RandChoose.Choose` | libco/co-first.c:200-268 | The choice is the eligible member at the random position or, if that has the current name, the other one of two, else the one two further on; it is NEW or WAITING, not the current name when names differ and two are eligible, and every brother link is null again |
| `RandChoose.EveryoneMayBeDrawn` | libco/co-first.c:222-253 | Every eligible member without the current name is chosen for some random value |
| `RandChoose.BuildPool` | libco/co-first.c:204-213 | The pool is exactly the eligible members in list order |
| `RandChoose.PoolAppend` | libco/co-first.c:146-153 | Adds one coroutine at the end of the brother chain |
| `RandChoose.PickAgain` | libco/co-first.c:234-253 | The second choice is in the pool and is another position if there are two or more |
| `RandChoose.SecondTry` | libco/co-first.c:235-245 | The two index formulas together never return the first index when there are two or more |
| `RandChoose.TearDown` | libco/co-first.c:256-263 | Every brother link of the pool is cleared |
| `Sperf.Profile.Feed` | mycode/sperf.c:189-204 | After every measurement the list holds each name once with the sum of its times, is non-increasing, and adds up to the total of everything |
| `Sperf.Profile.Report` | mycode/sperf.c:300-320 | The lines are those of the largest entries with truncated percentages of the total that add up to at most 100 |
| `Sperf.Append` | mycode/sperf.c:237-265 | The time goes to the entry with that name, or the node becomes the new tail |
| `Sperf.AddedRepresents` | mycode/sperf.c:237-265 | Appending charges the name with the time and keeps every name once |
| `Sperf.Sort` | mycode/sperf.c:267-287 | Exchanging payloads along the links computes the exchange sort of the items |
| `Sperf.SortFromSorts` | mycode/sperf.c:267-287 | The exchange sort leaves the times non-increasing |
| `Sperf.SortFromKeeps` | mycode/sperf.c:267-287 | The exchange sort keeps the names, their times and the sum |
| `Sperf.PercentagesAtMost100` | mycode/sperf.c:300-311 | Truncated percentages of any front of the list add up to at most 100 |
| `Sperf.PercentIsShare` | mycode/sperf.c:305-306 | A percentage is the largest integer not above the share |
| `Sperf.SortFromIdle` | mycode/sperf.c:267-287 | A list in order is left as it is, equal times included |

## Left out

- Reading the process table, option parsing, terminal width and the cutting of long lines in pstree; only the ASCII graphics set, whose escape strings are empty, is modelled, and lines are not truncated.
- PstreeMain.Run: printing the default root when no process has its pid reads outside the table in C; the model prints nothing then. Negative limits cannot occur, since the option is raised to at least 1.
- Pstree.MarkProcs: without showall the ancestor walk and the recursion loop forever on a cyclic table, so acyclic parents are required there; linking, dropping and printing do not need it.
- Fixed C buffers: the line buffers of pstree are sequences and so is the temporary of `test_producer`; allocation is not tracked.
- UserNames.NameCache.NameOf: the fixed-size copy buffers are sequences, and the password database is constant.
- The mutex of the bracket monitor is the atomicity of its steps; fairness is not modelled, so progress is bounded in actions of the threads and not in time, and a particular thread may wait forever.
- The text of the operations is not interpreted by a Python interpreter: a load or store of the counter is a constructor.
- Exec.Kernel.Exec: namei, readi, setupkvm, allocuvm, loaduvm and copyout are represented by their answers and the ranges copyout accepts; MAXARG, NAMESZ, PGSIZE and KERNBASE are the usual xv6 values, since the headers are not in the repository; argument strings are shorter than the address space. The contents of the loaded segments are not modelled.
- Spinlock: the lock is modelled on values, as a transition system, because several CPUs change it at once. Memory is sequentially consistent, a CPU does not migrate while ncli > 0, only idle code with ncli = 0 toggles interrupts, interrupt handlers are not run, pushcli and popcli are CPU-local single steps, and the recorded call stack is omitted.
- Scheduler: every CPU has a task (ncpu <= n); the scan of a CPU without one would not end. Context creation, locks and page tables of the two kernels are omitted.
- RandChoose.Choose: at least one coroutine must be eligible, because the C code follows a null link otherwise. `list_append`, `co_delete`, `co_wait`, `co_yield` and the stack switching of libco are omitted.
- Sperf.Profile.Report: times are exact numbers and not floating point; starting strace, parsing its lines and the refresh clock are omitted.
- `multi-threads/spinlock.c`, `multi-threads/fish.c`, `multi-threads/producer-consumer.c`, `tree/tree.c`, `libco/co.c` and `os-midterm` are not modelled; they would add simpler or unfinished members.
