# Verified models of the CS345 assignments

Three programs of the repository are modelled in Dafny and properties of them are proved:

* **The guessing game (Assignment2).** A server and a client each start M threads over two shared
  arrays, guesses and verdicts, and 2M counting semaphores. `GuessModel.dfy` gives every thread a
  program counter; one step is one thread taking one atomic action (one array access, one semaphore
  operation, one action under the mutex), and a run is any schedule of steps, so every result is about
  every interleaving, every N and M with N, M >= 1, and every secret over the 52 letters.
  `GuessInvariant.dfy` and `GuessSteps.dfy` hold the inductive invariant: the contents of a slice are a
  function of the secret and of the local state of the thread that holds its slot, and each pair of
  threads passes one token. `GuessTheorems.dfy`, `GuessLiveness.dfy` and `GuessOutcome.dfy` draw the
  consequences. `GuessSession.dfy` is the game on mutable arrays, every method tied to the step relation.
* **Process families in the kernel (Assignment3).** `ProcLimitModel.dfy` states the two system calls on
  values, `ProcLimitTheorems.dfy` proves what they keep over every run of calls, forks and clock ticks,
  and `ProcLimitKernel.dfy` is the code on heap task structs: the recursive dump over children lists and
  the loops over the task ring.
* **The shell front end (Assignment1).** `ShellTokens.dfy` and `ShellParse.dfy` are the tokenizer, in
  place on the command buffer; `ShellArgs.dfy` the redirection stripper and the pipe splitter with its
  cursor; `ShellPipeline.dfy` the loop that takes the stages from the argument vector and wires
  their pipes, on descriptor tables.

Some results say where the code falls short of its intention, and prove exactly when it does not:

* The game is free of deadlock if and only if M <= N; with M > N all server threads leave at once and
  every client thread waits for ever (`DeadlockFreeIff`, `TooManyThreads`). The whole secret is found if
  and only if M divides N (`WholeSecretIff`).
* The comparisons in getproclimit are the wrong way round. `max_cpu_time` is the smallest time of the
  family and `min_cpu_time` the largest; either field is what the header promises if and only if all
  members have used the same time (`ReportIsSwapped`, `MaxIsMaxIff`, `SwappedExample`).
* parseArguments tests a pointer where it means to test a character, so empty pieces are stored too. It
  runs off its array exactly on the lines of SIZE - 1 delimiters and nothing else (`ParseArguments`).
* The redirection stripper steps over the null pointer exactly if the arguments end with an odd number of
  operators, and then goes on through the entries that earlier commands left behind (`StripRedirections`).
  The calls of nextArg deliver the segments exactly if none is empty; from an empty one on, they repeat the
  segment before it (`SplitPipeline`). A pipeline completes exactly if every output passed through a pipe
  fits the pipe, because a stage is awaited before its reader starts (`RunPipeline`).

Concrete inputs on which the code goes wrong: `SwappedExample` with `SwappedIsReachable`, `BlankLineExample`,
`StaleEntryExample`, `EmptySegmentExample` and `OverfullExample`.

## Model

| member | source | states |
|---|---|---|
| GuessModel.AllLettersAreCovered | Assignment2/server.c:233-241 | every secret over the 52 letters is one the results speak of |
| GuessModel.SlicesDisjoint | Assignment2/server.c:350-351 | slices [i*(N/M), (i+1)*(N/M)) of different slots are disjoint |
| GuessModel.SliceOwner | Assignment2/server.c:350-351 | every position but the last N mod M lies in the slice of some slot |
| GuessInvariant.NeedIsLeast | Assignment2/client.c:197-209 | the rounds a slice needs are the least bound, at least 1 and at most 58, for all its letters |
| GuessInvariant.GrabKeepsSide | Assignment2/server.c:346-353 | the slot grab keeps: one holder of the mutex at most, slots handed out as 0, 1, 2, ..., each to one thread |
| GuessSteps.StepKeepsInv | Assignment2/client.c:186-209 | every atomic action of every thread keeps the whole invariant, and none leaves the shared segments |
| GuessSteps.ClientRoundEnd | Assignment2/client.c:201-208 | the flag is clear at the end of a round exactly if every letter of the slice is found, and the client then stops |
| GuessSteps.ClientStore | Assignment2/client.c:202-205 | only a guess that misses is moved on, by one letter, and never past its secret letter |
| GuessSteps.ServerScan | Assignment2/server.c:378-386 | the server goes on waiting exactly if its slice still holds a verdict of 0, and then another round is needed |
| GuessSteps.ServerJudge | Assignment2/server.c:366-376 | the verdict written is 1 exactly if the letter is found in this round |
| GuessTheorems.NoFault | Assignment2/server.c:357-361 | no schedule reaches an access outside the three shared segments |
| GuessTheorems.SingleToken | Assignment2/server.c:358-360 | in every reachable state sem[i] + sem[i+M] + [client is not in its wait] + [server is between its wait and its post] = 1, and the client is ahead by the post that waits or is being answered |
| GuessTheorems.GuessNeverPasses | Assignment2/client.c:195-206 | at every moment a guess is '0' or lies between 'A' and its secret letter |
| GuessTheorems.OfferOfRound | Assignment2/client.c:199-200 | the offer of round r is min('A' + r, secret letter) in every cell of the slice |
| GuessTheorems.AnswerIsRight | Assignment2/server.c:366-376 | from the server's post until the client has dealt with a position, its increment included, the verdict is 1 exactly if guess and secret letter agree |
| GuessTheorems.AgreementOnStopping | Assignment2/client.c:208 | once one thread of a pair has left, both have made the same number of rounds and neither waits in vain |
| GuessTheorems.SlotsArePermutation | Assignment2/server.c:349 | when all threads of a side have their slots, these are a permutation of 0..M-1 |
| GuessTheorems.SlotsAreExclusive | Assignment2/server.c:349-360 | slots in use are below M and used once, their semaphore indices are below 2M, their slices do not meet |
| GuessTheorems.EveryPositionHasOneThread | Assignment2/client.c:189-191 | every position but the last N mod M is in the slice of exactly one thread of a side |
| GuessTheorems.AccessIsComplete | Assignment2/client.c:195-206 | a step depends on and changes no array cell but the one `AccessOf` names |
| GuessTheorems.NoDataRace | Assignment2/server.c:357-361 | in no reachable state do two threads touch the same letter, verdict or thread_no when one of them writes it |
| GuessLiveness.StepBurnsFuel | Assignment2/server.c:357-361 | a bound on the steps still to come falls with every step of every thread |
| GuessLiveness.EveryRunIsFinite | Assignment2/client.c:197-209 | no schedule, fair or not, is longer than a bound computed from N and M |
| GuessLiveness.LongestRunIs | Assignment2/client.c:197-209 | that bound in numbers: M times a linear expression in N/M for each side, with 58 rounds |
| GuessLiveness.Progress | Assignment2/server.c:346-361 | with M <= N some thread can always move until all have exited |
| GuessLiveness.RunToTheEnd | Assignment2/server.c:176-177 | every run can be continued to one that no thread can leave |
| GuessLiveness.DeadlockFreeIff | Assignment2/server.c:357-361 | every run that cannot be continued has all threads exited, if and only if M <= N |
| GuessLiveness.TooManyThreads | Assignment2/client.c:199-200 | with M > N every run ends with all server threads gone and every client thread waiting after one post, nothing guessed |
| GuessOutcome.RoundsIsGreatest | Assignment2/client.c:197-209 | the rounds of a slice are 1 + the greatest distance of one of its letters from 'A' |
| GuessOutcome.FinalState | Assignment2/server.c:176-177 | when all threads have exited, both arrays and all semaphores are fixed by N, M and the secret |
| GuessOutcome.CompleteRunsAgree | Assignment2/server.c:273-274 | with M <= N all maximal runs end alike: the secret letter and 1 at every position but the last N mod M, still 48 (the character 0) and 0 at these, semaphores at 0 |
| GuessOutcome.RoundsTaken | Assignment2/client.c:197-209 | both threads of a pair have made exactly 1 + max(secret[k] - 'A') <= 58 rounds |
| GuessOutcome.WholeSecretIff | Assignment2/server.c:350-351 | a complete session has found the whole secret exactly if M divides N |
| GuessSession.Process.Grab | Assignment2/server.c:346-353 | the slot grab on the process's mutex, thread_no and thread variables is the modelled step |
| GuessSession.Session.constructor | Assignment2/server.c:273-332 | the three segments start as '0', 0 and semaphores at 0 |
| GuessSession.Session.ClientTurn | Assignment2/client.c:195-208 | one client action on the shared arrays is the modelled step, and blocks only when that does |
| GuessSession.Session.ServerTurn | Assignment2/server.c:357-376 | one server action on the shared arrays is the modelled step, and blocks only when that does |
| GuessSession.Session.Play | Assignment2/server.c:168-177 | any schedule, played on the arrays until nobody can move, is a run of the model |
| GuessSession.ServerThreadsLeave | Assignment2/server.c:176-177 | the server's joins return in every session, with thread_no at M |
| GuessSession.GuessServer.Serve | Assignment2/server.c:150-220 | whatever the schedule, a session leaves the common outcome in both arrays and all client threads gone, or with M > N nothing found and every client thread waiting for ever; thread_no is back at 0 |
| GuessSession.GuessServer.ServeAll | Assignment2/server.c:102-222 | so does every session of any sequence of sessions with varying M and N, each under its own schedule |
| ProcLimitModel.FindFrom | Assignment3/linux-2.6.38.1/kernel/setproclimit.c:54-61 | the ring search finds the first task with the pid, or there is none |
| ProcLimitTheorems.SetCode | Assignment3/linux-2.6.38.1/kernel/setproclimit.c:41-77 | setproclimit returns 0 exactly if limit <= interval and the pid is -1 or that of a task on the ring; otherwise -22, and nothing changes |
| ProcLimitTheorems.SetEffect | Assignment3/linux-2.6.38.1/kernel/setproclimit.c:16-31 | when it succeeds, the three fields of exactly the tasks at or below the named one are its pid and the two numbers; all else is as it was |
| ProcLimitTheorems.UnderIffPath | Assignment3/linux-2.6.38.1/kernel/setproclimit.c:26-30 | a task is below another exactly if a chain of parents leads up to it |
| ProcLimitTheorems.GetCode | Assignment3/linux-2.6.38.1/kernel/getproclimit.c:23-150 | getproclimit returns -22 for a null pointer or an unknown pid, then -14 for a bad address, then -22 for a failed copy, else 0, and writes only then |
| ProcLimitTheorems.GetInNoFamily | Assignment3/linux-2.6.38.1/kernel/getproclimit.c:47-52 | for a task whose root pid is -1 all three times are 0xFFFFFFFF |
| ProcLimitTheorems.InNoFamilyIff | Assignment3/linux-2.6.38.1/kernel/setproclimit.c:16-31 | after every run a task has root pid -1 exactly if no call has ever succeeded on it or above it |
| ProcLimitTheorems.NeverCalledReport | Assignment3/linux-2.6.38.1/kernel/getproclimit.c:116-121 | so for such a task getproclimit writes -1 in every field |
| ProcLimitTheorems.GetInFamily | Assignment3/linux-2.6.38.1/kernel/getproclimit.c:114-141 | for a task in a family it writes the task's three values, the sum over the members on the ring, wrapped at 32 bits, the least member time in max and the greatest in min |
| ProcLimitTheorems.RunHasShape | Assignment3/linux-2.6.38.1/kernel/setproclimit.c:16-67 | after every run a task other than init_task heads its own family or carries its parent's three values, and limit <= interval |
| ProcLimitTheorems.FamilyTop | Assignment3/linux-2.6.38.1/kernel/setproclimit.c:16-31 | a family member is below, or is, the task whose pid is the root pid, and everything between carries the same values |
| ProcLimitTheorems.FamiliesAgree | Assignment3/linux-2.6.38.1/kernel/setproclimit.c:16-31 | tasks with the same root pid have the same limit and interval |
| ProcLimitTheorems.LastWriterWins | Assignment3/linux-2.6.38.1/kernel/setproclimit.c:33-77 | after any calls, failing ones included, a task holds what the last successful call on it or an ancestor wrote; pid and times are untouched |
| ProcLimitTheorems.DisjointCallsCommute | Assignment3/linux-2.6.38.1/kernel/setproclimit.c:41-67 | calls on disjoint subtrees commute |
| ProcLimitTheorems.AncestorAbsorbs | Assignment3/linux-2.6.38.1/kernel/setproclimit.c:41-67 | a call on an ancestor makes an earlier call below it as if it had not been |
| ProcLimitTheorems.FamilyIsSubtree | Assignment3/linux-2.6.38.1/kernel/setproclimit.c:16-31 | after a successful call the tasks with the target's pid as root are exactly its subtree, no stale member outside |
| ProcLimitTheorems.RingSumIsTreeSum | Assignment3/linux-2.6.38.1/kernel/getproclimit.c:126-137 | the sum over the ring by root pid is then the sum over the subtree |
| ProcLimitTheorems.SubtreeTimeAdds | Assignment3/linux-2.6.38.1/kernel/getproclimit.c:126-137 | that sum adds (stime + utime) mod 2^32 of every task of the ring at or below the target, once each |
| ProcLimitTheorems.SetThenGet | Assignment3/linux-2.6.38.1/kernel/getproclimit.c:109-141 | in every reachable state, get on any task below the target of a successful set reports the values set and the time of exactly that subtree |
| ProcLimitTheorems.FamilyStaysSubtree | Assignment3/linux-2.6.38.1/kernel/setproclimit.c:16-67 | forks, ticks, failing calls and calls on unrelated targets keep the family equal to the subtree, however many there are |
| ProcLimitTheorems.SetThenGetLater | Assignment3/linux-2.6.38.1/kernel/getproclimit.c:109-141 | so get still reports the values set, and the time of the subtree as it has become, after any run of those |
| ProcLimitTheorems.BranchesAgree | Assignment3/linux-2.6.38.1/kernel/getproclimit.c:28-150 | pid -1 and the caller's own pid give the same codes, struct and state when the caller is on the ring (on the specification, whose two branches share their tail; `Kernel.SysGetProcLimit` and `Kernel.SysSetProcLimit` write both branches out and are proved equal to it) |
| ProcLimitTheorems.ReportIsSwapped | Assignment3/linux-2.6.38.1/kernel/getproclimit.c:114-141 | max_cpu_time is the smallest and min_cpu_time the largest time of the family, both attained, and they bound the total |
| ProcLimitTheorems.MaxIsMaxIff | Assignment3/proclimit.h:11-12 | the two fields are what the header says exactly if all members have used the same time |
| ProcLimitTheorems.SwappedExample | Assignment3/linux-2.6.38.1/kernel/getproclimit.c:129-134 | a family of two on which both fields are wrong |
| ProcLimitTheorems.SwappedIsReachable | Assignment3/linux-2.6.38.1/kernel/getproclimit.c:129-134 | a run of forks, one call and two ticks that leads to it |
| ProcLimitKernel.VisitedOnce | Assignment3/linux-2.6.38.1/kernel/setproclimit.c:26-30 | the recursion visits every task of the subtree exactly once and no other |
| ProcLimitKernel.VisitsPaintSubtree | Assignment3/linux-2.6.38.1/kernel/setproclimit.c:16-31 | giving the values to the tasks visited is giving them to the subtree |
| ProcLimitKernel.Kernel.Dump | Assignment3/linux-2.6.38.1/kernel/setproclimit.c:16-31 | the dump terminates, gives the tasks visited the three values, and changes no other task, field or tree link |
| ProcLimitKernel.Kernel.Find | Assignment3/linux-2.6.38.1/kernel/setproclimit.c:54-61 | the ring walk is the search of the model |
| ProcLimitKernel.Kernel.SysSetProcLimit | Assignment3/linux-2.6.38.1/kernel/setproclimit.c:33-77 | both branches as written: return code and new heap are those of the model; in the task structs, root_pid, time_limit and time_interval are the pid, the limit and the interval at and below the task found, and no other task struct has changed |
| ProcLimitKernel.OneMoreTime | Assignment3/linux-2.6.38.1/kernel/getproclimit.c:128-135 | one more member changes the wrapped sum, the smallest and the largest time as one turn of the loop does |
| ProcLimitKernel.Kernel.Aggregate | Assignment3/linux-2.6.38.1/kernel/getproclimit.c:126-137 | the loop as written computes the wrapped sum, the smallest time in max and the largest in min |
| ProcLimitKernel.Kernel.CorrectedAggregate | Assignment3/proclimit.h:10-12 | with the comparisons of the loop put right, max is the largest and min the smallest time of the family, and count times either bounds the sum |
| ProcLimitKernel.Kernel.SysGetProcLimit | Assignment3/linux-2.6.38.1/kernel/getproclimit.c:17-156 | both branches as written: return code and struct are those of the model, error cases included, and the struct has the three fields of the task found |
| ProcLimitKernel.Kernel.constructor | Assignment3/linux-2.6.38.1/include/linux/init_task.h:133-135 | init_task starts alone, with -1 in the three fields |
| ProcLimitKernel.Kernel.Fork | Assignment3/linux-2.6.38.1/include/linux/sched.h:1298-1299 | the assumed environment step: a fork copies the three fields and keeps the children lists and the ring linked to the same tasks |
| ShellTokens.FindWords | Assignment1/mysh.c:15 | every line has its words somewhere: stretches that do not touch and that hold exactly the characters that are no blank, tab, carriage return or newline |
| ShellTokens.ArgsAre | Assignment1/mysh.c:287-307 | wherever they are, the arguments are these stretches but "mytime" and "&", in order |
| ShellTokens.ArgsOfLaid | Assignment1/mysh.c:287-307 | any words, each followed by any blanks, tabs, carriage returns and newlines, parse to just those words but "mytime" and "&" |
| ShellTokens.NonEmptyPiecesAreWords | Assignment1/mysh.c:287-305 | the non-empty pieces are the maximal runs of non-delimiters |
| ShellTokens.PiecesFitIff | Assignment1/mysh.c:287-290 | the pieces leave room for the end marker except on SIZE - 1 delimiters and nothing else |
| ShellTokens.BlankLineExample | Assignment1/mysh.c:287-292 | on 1023 blanks they do not |
| ShellTokens.KeptPiecesAreArgs | Assignment1/mysh.c:292-307 | what the loop keeps are the words but "mytime" and "&", which it meets exactly if they are words of the line |
| ShellTokens.ReparseArgs | Assignment1/mysh.c:274-311 | re-parsing the arguments joined by single spaces gives the same arguments, no flag, and a line no longer |
| ShellTokens.ArgsAreFew | Assignment1/mysh.c:309 | there are at most SIZE / 2 arguments |
| ShellParse.Strsep | Assignment1/mysh.c:287 | strsep hands out the piece at its pointer, ends it with a NUL in the buffer and moves on |
| ShellParse.PieceAt | Assignment1/mysh.c:292-305 | after the cuts, every stored pointer leads to its piece in the buffer, ended by a NUL |
| ShellParse.CutLine | Assignment1/mysh.c:282-290 | every delimiter is overwritten, every piece's pointer stored, then the end marker if there is room |
| ShellParse.CollectArgs | Assignment1/mysh.c:292-310 | the second loop collects the words, sets the flags, ends the vector, and runs off its array exactly if the end marker is missing |
| ShellParse.ParseArguments | Assignment1/mysh.c:274-311 | in the cut buffer the vector's pointers lead to the words of the line but "mytime" and "&", each ended by a NUL; at most 512 of them, NULL behind them, both flags right; except exactly on 1023 blanks, tabs, carriage returns or newlines |
| ShellArgs.SearchForRedirection | Assignment1/mysh.c:313-336 | a flag is set exactly if its operator occurs, and its index is the last occurrence |
| ShellArgs.WalkFitsIff | Assignment1/mysh.c:386-401 | the stripping walk ends on the NULL exactly if the arguments do not end with an odd number of operators |
| ShellArgs.StripOfArgs | Assignment1/mysh.c:386-401 | on any array, stale entries included, the loop copies the stripped arguments and, when it has stepped over the NULL, what the stale entries give |
| ShellArgs.StrippedIff | Assignment1/mysh.c:386-402 | the copy is the stripped arguments exactly if there is no odd tail of operators or the stale entries happen to add nothing |
| ShellArgs.StaleEntryExample | Assignment1/mysh.c:386-402 | after `ls >` an argument left over from an earlier command is copied |
| ShellArgs.StrippedIsUnpaired | Assignment1/mysh.c:386-402 | if every operator has its file name, exactly the operators and their file names go |
| ShellArgs.StrippedAreFree | Assignment1/mysh.c:388-397 | in positions: with a file name behind every "<", ">" and ">>", exactly the arguments are kept that are none of these and do not stand right behind one |
| ShellArgs.OddTailIs | Assignment1/mysh.c:388-401 | the tail that matters is the number of operators at the end, odd or even |
| ShellArgs.StripRedirections | Assignment1/mysh.c:384-403 | the loop builds the stripped vector, NULL-terminated; with an odd tail of operators it adds the stale entries behind the NULL, or runs into the end of the array, exactly as those entries say |
| ShellArgs.SearchForPipe | Assignment1/mysh.c:338-350 | the counter grows by the number of pipes and the flag is set exactly if there is one |
| ShellArgs.JoinOfSegments | Assignment1/mysh.c:499-517 | the segments between pipes joined by pipes are the arguments |
| ShellArgs.SegmentsHoldNoPipe | Assignment1/mysh.c:507 | no segment holds a pipe |
| ShellArgs.SegmentCount | Assignment1/mysh.c:344-347 | there is one segment more than there are pipes |
| ShellArgs.NextArg | Assignment1/mysh.c:499-517 | the cursor advances exactly if the segment at it is not empty, and then the vector holds that segment; otherwise nothing changes |
| ShellArgs.DeliveredIff | Assignment1/mysh.c:194-214 | the vectors that pipeCounter + 1 calls leave are the segments exactly if no segment is empty |
| ShellArgs.DeliveredFrom | Assignment1/mysh.c:499-517 | in positions: the vectors hold what stands between the places of the pipe character, up to the first empty stretch, and from there on repeat the one before |
| ShellArgs.DeliveredWhenStuck | Assignment1/mysh.c:503-513 | from an empty segment on, every call leaves the cursor and the vector as they are |
| ShellArgs.EmptySegmentExample | Assignment1/mysh.c:194-214 | with two pipes side by side between ls and wc, all three vectors hold ls |
| ShellArgs.AllNextArgs | Assignment1/mysh.c:194-214 | pipeCounter + 1 calls leave exactly those vectors, unless the first segment is empty and the vector was never written |
| ShellArgs.SplitPipeline | Assignment1/mysh.c:194-214 | so split and join are inverse exactly if no segment is empty; the vectors are given by the places of the pipe characters |
| ShellPipeline.LowestFree | Assignment1/mysh.c:195 | pipe() gets the lowest descriptors not in use |
| ShellPipeline.Shell.Exec | Assignment1/mysh.c:548-554 | a program, write by write, ends only if it sees end of file on its input and all its writes find room; it reads what its pipe holds, or else what is typed, and adds what it writes to the pipe at 1 |
| ShellPipeline.ChildTable | Assignment1/mysh.c:527-535 | the child has its two ends at 0 and 1, no other copy of them, and else the table of the shell |
| ShellPipeline.Shell.SpawnProc | Assignment1/mysh.c:519-561 | a stage runs with its ends in place of 0 and 1 while the shell waits |
| ShellPipeline.Shell.Turn | Assignment1/mysh.c:194-210 | after a turn no write end is open and the kept read end holds what the stage writes on what the pipe before it held, exactly if that fits |
| ShellPipeline.Shell.LastStage | Assignment1/mysh.c:211-220 | the last stage sees end of file and writes what it writes on what the last pipe held |
| ShellPipeline.Shell.RunStages | Assignment1/mysh.c:193-220 | every stage reads what the one before it wrote, the first what is typed; the last output is the result exactly if every piped output fits its pipe, and else the loop stops for ever at the first that does not |
| ShellPipeline.Shell.OneOutcome | Assignment1/mysh.c:519-561 | the stages determine the outcome, and it finishes exactly if every piped output fits |
| ShellPipeline.OverfullExample | Assignment1/mysh.c:556-558 | a first stage that writes one character more than fits |
| ShellPipeline.JoinedIs | Assignment1/mysh.c:548-554 | what a program writes comes to its writes one behind the other and nothing else |
| ShellPipeline.Shell.RunPipeline | Assignment1/mysh.c:193-220 | the same from the argument vector: the stages are the programs named by what stands between the pipe characters, up to the first empty stretch |

## Left out

- Sockets, shared-memory keys, attaching and removing segments, and thread creation failures: calls into the system. The three segments are disjoint and start with the values the create functions write.
- The random choice of the secret: the secret is any sequence of the 52 letters.
- A session with M = 0 or M < 0: it gets no threads or no memory, so nothing of the protocol runs.
- Time measurement, printing, signal handlers and history: no state the properties speak of.
- ProcLimitKernel.Kernel.Fork: the kernel's fork is not part of this model; what it does to the modelled fields and lists is assumed.
- Kernel locking, RCU, threads inside a process, exit and reparenting: not handled by the modelled code. Runs consist of set calls, forks and clock ticks.
- cputime_to_usecs is not part of this model: `stime` and `utime` stand for the values it returns, and their sum wraps at 32 bits, as unsigned long does on the configured machine.
- copy_from_user, copy_to_user and access_ok: their outcomes are a parameter; the bytes they move are the returned struct.
- sched.h's intrusive lists: a children list and the ring are sequences of tasks, and the order in which fork links them is the order of creation.
- The command buffer after tokenizing: `ShellArgs.dfy` has the strings the pointers refer to, not the pointers.
- ShellArgs.AllNextArgs: stops when the first segment is empty, because the code then reads an array that was never written.
- ShellPipeline.Shell.Exec: the writes of a program are a function of its whole input, and a write is made whole or not at all; programs that do not read up to end of file, or never end, are not modelled. What execvpe runs for a vector is a parameter.
- Opening the redirected files, `cd`, `exit`, background commands, and the exec of the program itself.
