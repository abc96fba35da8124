# Verified models of the algorithms behind the YDBTest programs

Most of the YDBTest suite drives a database. A few of its programs hold algorithms whose correctness
is a statement about all their runs. This project models them in Dafny, one group of modules each,
and proves those statements.

**The concurrent 3n+1 solver** (`Collatz`, `Blocks`, `Traces`, `Solver*`). `main` cuts 1..endnum into
blocks; goroutines claim blocks with an atomic increment, walk trajectories until they meet a number
whose step count is known, raise `^result` in a transaction and then write `^step` one entry at a
time without a lock. `Solver` is a step machine with one program counter per worker. A turn is one
database access; a transaction is one turn that commits or one that aborts. `SolverInvariant` and
`SolverRuns` prove an inductive invariant by a rely/guarantee argument, and `SolverTheorems`,
`SolverCounts` and `SolverTermination` draw the conclusions. `SolverProgram` is the goroutine as it
is programmed, with loops and fields, and proves that each of its accesses is a turn of the machine,
whatever the others do in between.

**The imptp jobs** (`ModPow`, `Intervals`, `Imptp*`). Job j uses in loop l the index root^((j-1)+(l-1)*jobcnt)
modulo prime. From the order of the root alone follow the primality of the modulus, the injectivity
of the indices and the number of unused ones; `ImptpRoot` proves that the configured root 5 has that
order modulo 50000017. `ImptpJob` is a step machine in which any process may be lost at any moment;
`ImptpProgram` is the worker with its 32- and 64-bit arithmetic.

**The translation database** (`Xlate*`). A binary tree of hosts on the heap, each with a binary tree
of directories that hosts with one address may share. `XlateLayout` computes from the records of the
translation file alone which host gets which tree, and `XlateService` which request gets which answer;
`XlateAnswers` says what that comes to in the letters of the file and of the request.
The trees of the program are classes updated in place (`XlateHosts`, `XlateDirTree`); `XlateView` is
the database as a value, `XlateDrawn` shows that saving the records one after the other draws exactly
that layout, and `Xlate` is the service with its start-up, its failures and its answers.

**The pseudo bank** (`Text`, `Chains`, `Bank*`). What a transfer does to the texts in the database,
what every sequence of committed transfers keeps, and the program with its shared keys and buffers,
its transaction body cut off at any access, and other workers that commit between its attempts.

**Encoders** (`Escaping`, `AuditLog`, `Collation`, `Polish`, `PolishOrder`, `Hindi`). The escaping of
audit messages, the log made of them, and the collations: byte tables, those of Polish and its reverse
with the alphabet they follow, and the one for Hindi digits.

`Arith` holds the facts about products and remainders on which all arithmetic here is built, `Words`
the signed machine words, `Text` the decimal texts of numbers, `Traces` what a recorded history is.

## Where the code and its own words differ

- `threeenp1B2.go` says at 206-210 that results left by a crash are used again, but 159-202 delete
  them when the program starts, and 262-270 delete `^limits`. The model follows the code: `^step` is
  empty when the workers are released.
- `imptpjob.rs` 93-97 promises a permutation of 1..p-1. With one job and the default number of loops
  there is one loop too many and index 1 is used twice (`ImptpIndex.OneJobRepeats`); the exact
  condition is `ImptpIndex.DefaultNoIndexTwiceIff`.
- `imptpgo2.go` 102-105 and 687-690 doubts that the jobs' indices stay apart once they are reduced
  modulo the prime. They do, also after crashes (`ImptpRoot.ConfiguredJobsAreSafe`).
- `gtm_env_xlate_sq.c` 594-602 says that a new name whose address is known goes to the existing
  table. That is so exactly when the table is not empty by then (`XlateLayout.NewcomerSharesIff` and,
  on the database, `XlateView.SharesIff`). As a consequence a path recorded under an alias of our own
  host is not found as long as no record gives our own name a path (`Xlate.AliasIsLost`,
  `XlateService.EachRecordAnswered`).
- `gtm_env_xlate_sq.c` 565-569 says that a host name without an address is passed over. The reading
  loop fails on it before (531-535), which breaks the service (`Xlate.Translator.ReadDirTable`).
- `audit_listener.c` 140-145 asks for a target of twice the length of the message. One more byte is
  needed when all characters are special (`Escaping.TwiceIsEnoughIff`). The listener's buffers have it.
- The listeners for TCP and TLS escape the message and then print it unescaped (353-354, 695-696); the
  one for Unix sockets prints what it has escaped (753-754). `AuditLog.RawLogIsReadIff` says which
  logs of the former read back.
- `col_polish.c` and `col_polish_rev.c` check that the result fits and then write a NUL behind it, which
  is one byte too far when it fits exactly (`Collation.TransformTerminated`).
- `col_unicode_numeric.c` 70-86 looks for the second and third byte of a character without asking
  whether the string has them (`Hindi.HindiNumReverse`).

## Model

| member | source | states |
|---|---|---|
| Collatz.StepsIsFirstHit | go/inref/threeenp1B2.go:727-785 | "reaches 1 after exactly k steps" is the same as: the k-th number of the trajectory is 1 and none before is |
| Collatz.StepsUnique | go/inref/threeenp1B2.go:849-866 | a number has at most one step count, so that two writers of one entry cannot disagree |
| Collatz.StepsExtend | go/inref/threeenp1B2.go:786-804 | the step count of a number met on a walk, added to the length of the walk, is that of its start |
| Collatz.Next64Exact | go/inref/threeenp1B2.go:756-761 | on every number that fits an 18-digit subscript the 64-bit step is the mathematical one |
| Collatz.NineTakesNineteen | go/inref/threeenp1B2.go:756-761 | a known trajectory: from 9 it takes 19 steps to 1, over 52 |
| Words.Truncated | com/simpleapi_imptp.c:1066-1070 | truncation to 32 or 64 bits gives the number of the range of the word that differs by a multiple of 2^32 or 2^64 |
| Words.RemTruncates | com/simpleapi_imptp.c:1066-1070 | the remainder of C and Go has the sign of the dividend, is smaller than the divisor and leaves a multiple of it |
| Text.DigitCount | go/inref/threeenp1B2.go:733-733 | a number has at most k digits exactly when it is below 10^k |
| Text.DigitsInPlaces | go/inref/threeenp1B2.go:733-733 | the characters of a text are the decimal digits in their places, without a zero in front |
| Blocks.BlockSize | go/inref/threeenp1B2.go:254-261 | the requested block size if an even split among the streams is not smaller, and otherwise the least size whose blocks suffice for the streams |
| Blocks.SplitBlocks | go/inref/threeenp1B2.go:271-305 | the loop ends and leaves floor(endnum/blk) contiguous blocks, all of size blk but the last, which absorbs the remainder |
| Blocks.BlocksPartition | go/inref/threeenp1B2.go:262-305 | every number of 1..endnum is in one block and in no other |
| Solver.TraceIsRun | go/inref/threeenp1B2.go:306-327 | a history kept state by state is a run of the step machine |
| SolverInvariant.LocalStable | go/inref/threeenp1B2.go:733-804 | what a worker has found out stays true whatever the others write: a $DATA answered yes stays yes until the later fetch |
| SolverInvariant.PublishAgrees | go/inref/threeenp1B2.go:844-870 | an entry that is already there when it is written holds the value that is written |
| SolverInvariant.DoOk | go/inref/threeenp1B2.go:414-911 | every turn of a worker keeps the invariants of the database and of the worker, changes or removes no entry, and panics only on a number or path too long for a subscript |
| SolverRuns.ActInv | go/inref/threeenp1B2.go:306-327 | every turn of the whole system keeps the global invariant: claims, blocks, closure, highest |
| SolverRuns.RunInv | go/inref/threeenp1B2.go:306-327 | the invariant holds after every schedule, and the database has only grown |
| SolverTheorems.EntriesExact | go/inref/threeenp1B2.go:728-870 | in every reachable state every entry of ^step is the exact step count of its number, and is the same in every later state |
| SolverTheorems.EntryIsCount | go/inref/threeenp1B2.go:809-870 | no entry of ^step is above ^result: the maximum is committed before anything is published |
| SolverTheorems.MissingSuccessorsArePending | go/inref/threeenp1B2.go:816-870 | in every reachable state the successor of an entry is an entry, or 1, or in the unwritten rest of some worker's path |
| SolverTheorems.FitsSubscriptIff | go/inref/threeenp1B2.go:461-461 | a number is below the limit at which the solver panics exactly when its text fits the 18 characters of a subscript |
| SolverTheorems.PanicOnlyWhenTooLong | go/inref/threeenp1B2.go:729-752 | no worker fetches an undefined node; a panic means that a trajectory has a number whose text, or a number of steps whose text, is longer than 18 characters |
| SolverTheorems.PanicsIff | go/inref/threeenp1B2.go:729-752 | in every reachable state a turn panics exactly when the number looked up, or the place of an unknown number in the path, has a text of more than 18 characters |
| SolverTheorems.WalkNeverOverflows | go/inref/threeenp1B2.go:733-761 | in every reachable state the step taken is the true one and its value is below 2^63 |
| SolverTheorems.FinalDomain | go/inref/threeenp1B2.go:728-870 | when all workers are done ^step is defined for exactly the numbers above 1 on the trajectories from 2..endnum |
| SolverTheorems.FinalResult | go/inref/threeenp1B2.go:786-911 | when all workers are done ^result is the largest step count of 2..endnum, also of numbers that were skipped as known |
| SolverTheorems.FinalHighest | go/inref/threeenp1B2.go:660-784 | when all workers are done ^highest is the largest number reached after at least one step, although walks stop at known numbers |
| SolverTheorems.FinalClaims | go/inref/threeenp1B2.go:554-588 | when all workers are done the counter of block b is min(streams, b), and there are no other counters |
| SolverCounts.EachBlockOnce | go/inref/threeenp1B2.go:554-625 | in every complete run worker s claims each block above s exactly once, and each block is processed exactly once |
| SolverCounts.StatisticsBalance | go/inref/threeenp1B2.go:626-659 | in every run shared and not yet merged statistics add up to the probes and writes made, however often transactions are repeated |
| SolverCounts.SizeIsWritesForOneWorker | go/inref/threeenp1B2.go:844-870 | with one worker no entry is ever written twice |
| SolverCounts.FinalStatistics | go/inref/threeenp1B2.go:629-659 | at the end ^reads and ^updates are the probes and writes made; ^step has at most ^updates entries, and with one stream exactly as many |
| SolverTermination.EffectiveTurnsBounded | go/inref/threeenp1B2.go:554-872 | if the starts reach 1, no schedule contains more than a fixed number of effective turns |
| SolverTermination.NeverStuck | go/inref/threeenp1B2.go:554-872 | until all workers are done some turn is effective |
| SolverTermination.FittingRunsDoNotPanic | go/inref/threeenp1B2.go:733-752 | if all trajectories reach 1 through numbers whose texts have at most 18 characters, no run panics, for a path then fits its subscript too |
| SolverTermination.CompletesIff | go/inref/threeenp1B2.go:306-327 | the solver can complete if and only if every start reaches 1 through numbers whose texts have at most 18 characters |
| SolverProgram.Database.Finish | go/inref/threeenp1B2.go:331-408 | what main fetches after the join is the longest path, the highest number and the counts of the run, and the database is reset |
| SolverProgram.Goroutine.Walk | go/inref/threeenp1B2.go:727-785 | the walking loop, with others writing in between, is a sequence of turns of the machine and leaves the walked numbers in currpath; it is left unfinished after the allowed number of steps only if not all starts reach 1 within so many |
| SolverProgram.Goroutine.FetchSteps | go/inref/threeenp1B2.go:787-804 | the fetch finds a defined node and leads to the machine's next state |
| SolverProgram.Goroutine.RaiseResult | go/inref/threeenp1B2.go:809-815 | after any number of aborted attempts the transaction commits the maximum once |
| SolverProgram.Goroutine.PublishPath | go/inref/threeenp1B2.go:816-871 | the publishing loop writes every number of the path in order and goes on to the next start |
| SolverProgram.Goroutine.DoStep | go/inref/threeenp1B2.go:704-873 | the loop over a block, whatever its numbers, is a run of the machine from the start of the block to the next probe, to a panic, or into a walk that is longer than allowed |
| SolverProgram.Goroutine.MergeStatistics | go/inref/threeenp1B2.go:629-697 | after any number of aborted attempts the statistics are merged once |
| SolverProgram.Goroutine.FetchBlock | go/inref/threeenp1B2.go:589-623 | the winner of a claim fetches limits that are defined and a block that is not empty |
| SolverProgram.Goroutine.DoBlk | go/inref/threeenp1B2.go:554-635 | the goroutine runs its worker of the machine to the end, or the process panics, or a walk is longer than allowed |
| ModPow.PowInjective | com/imptp-rs/imptpjob.rs:93-103 | powers of the root below the order are different modulo the prime |
| ModPow.PowersCover | com/imptp-rs/imptpjob.rs:93-103 | the first p-1 powers of the root are all of 1..p-1 |
| ModPow.OrderMeansPrime | com/imptp-rs/imptpjob.rs:97-101 | a modulus for which some number has order p-1 is prime |
| ImptpIndex.NoIndexTwiceIff | com/impjobgo.go:603-623 | no index is used twice by any jobs in any loops if and only if top*jobcnt < prime |
| ImptpIndex.DefaultNoIndexTwiceIff | com/impjobgo.go:341-344 | with top = prime\jobcnt no index is used twice if and only if jobcnt is neither 1 nor prime |
| ImptpIndex.OneJobRepeats | com/impjobgo.go:341-344 | one job with the default number of loops uses index 1 in its first and in its last loop |
| ImptpIndex.UsedIsUsed | com/impjobgo.go:603-623 | the set of used indices is that of the turns of all jobs |
| ImptpIndex.FewUnused | com/impjobgo.go:341-344 | with the default number of loops and 2 <= jobcnt < prime exactly prime mod jobcnt - 1, so fewer than jobcnt, of 1..prime-1 are not used |
| ImptpIndex.OneJobPermutes | com/imptp-rs/imptpjob.rs:93-135 | one job's first prime-1 loops use each of 1..prime-1 exactly once |
| ImptpIndex.SmallExample | com/imptp-rs/imptpjob.rs:125-133 | the documented example: 3 has order 6 modulo 7 and gives the indices 1, 3, 2, 6, 4, 5 |
| ImptpIndex.IndexInRange | com/impjobgo.go:603-619 | no index is 0 |
| ImptpRoot.RootIsPrimitive | com/imptpgo2.go:264-266 | the configured root 5 has order 50000016 modulo the configured 50000017, so that every theorem above applies to the configured jobs |
| ImptpRoot.OrderFromPrimes | com/imptpgo2.go:264-266 | b has order p-1 if b^(p-1) is 1 and b^((p-1)/q) is not, for the primes q of p-1 |
| ImptpRoot.ConfiguredNoIndexTwiceIff | com/impjobgo.go:603-623 | as configured, no index is used twice if and only if top*jobcnt < 50000017 |
| ImptpRoot.ConfiguredJobsAreSafe | com/imptpgo2.go:684-702 | as configured, with two or more jobs and the default number of loops, no index is used twice and no data is overwritten, over any crashes and restarts |
| ImptpJob.StartIndex | com/impjobgo.go:575-619 | a start computes nroot = root^jobcnt and, from ^lasti, the index of the next loop |
| ImptpJob.NextIndex | com/impjobgo.go:939-940 | the product at the end of a loop is the index laid down for the next loop |
| ImptpJob.ExactlyOnce | com/impjobgo.go:582-619 | over any sequence of crashes, aborts and restarts the committed stage 1 transactions of a job are those of loops 1..lasti, each once, in order, under their indices |
| ImptpJob.GoesDownIff | com/impjobgo.go:623-945 | a running process goes down only when it is lost, when it is told to stop at the end of a loop, or when its last loop is committed, and then it does |
| ImptpJob.EnoughStepsComplete | com/impjobgo.go:623-945 | a job that gets three steps for each loop and two more for each loss commits all its loops 1..top, whatever the others do, and however often it is told to stop or its transactions abort |
| ImptpJob.NothingOverwritten | com/impjobgo.go:709-718 | with fewer turns than the prime every committed loop of every job finds its own data under its own index, and there is no other data |
| ImptpProgram.ComputeNroot | com/impjobgo.go:575-579 | the 32-bit loop computes root^jobcnt mod prime, whatever jobcnt, when (prime-1)*root fits 32 bits |
| ImptpProgram.ConfiguredProductsFit | com/simpleapi_imptp.c:1031-1035 | with prime 50000017 and root 5 the 32-bit products do not overflow |
| ImptpProgram.WideProductNeeded | com/simpleapi_imptp.c:1066-1070 | as configured, the first job of ten forms in its second loop a product of an index and nroot beyond 32 bits, whose remainder would be another if it were cut to 32 bits |
| ImptpProgram.MulMod | com/simpleapi_imptp.c:1066-1070 | the product widened to 64 bits cannot overflow and its remainder fits 32 bits |
| ImptpProgram.ResumeIndex | com/impjobgo.go:610-619 | the two loops compute the product that a start of the machine computes |
| ImptpProgram.Database.Committed | com/impjobgo.go:1155-1171 | in every state of the program's database the commits of a job are those of loops 1..lasti |
| ImptpProgram.ImpJob.Boot | com/impjobgo.go:575-623 | a new or restarted process is at the machine's main loop, with its index, nroot and loop |
| ImptpProgram.ImpJob.Stage1 | com/impjobgo.go:709-718 | after any number of aborts ^lasti and the data are committed together |
| ImptpProgram.ImpJob.Live | com/impjobgo.go:623-945 | one life of the process, lost at any point or not, is a run of the machine; if it is neither lost nor told to stop, exactly the loops 1..top of the job are committed at its end |
| ImptpProgram.ImpJob.Lives | com/imptpgo2.go:656-702 | so are any number of lives one after the other, and the same holds when the last of them is neither lost nor told to stop |
| XlateOrder.StringCmpTotal | env_xlate/inref/gtm_env_xlate_sq.c:997-1010 | the comparison is antisymmetric, only equal strings tie, and the shorter string is the lesser |
| XlateOrder.StringCmpTransitive | env_xlate/inref/gtm_env_xlate_sq.c:997-1010 | the length-first comparison is transitive |
| XlateOrder.CaseCmpTotal | env_xlate/inref/gtm_env_xlate_sq.c:1016-1029 | the comparison of host names is that order on their lower-case forms |
| XlateOrder.FirstDifferenceDecides | env_xlate/inref/gtm_env_xlate_sq.c:997-1010 | strings of one length are ordered by the first character in which they differ |
| XlateOrder.FoldEqualIff | env_xlate/inref/gtm_env_xlate_sq.c:1016-1029 | lower-case forms are equal exactly when they are so character by character |
| XlateOrder.TieIffAlike | env_xlate/inref/gtm_env_xlate_sq.c:1016-1029 | two names tie exactly when they have one length and are equal at each place but for a letter of A..Z and its small letter |
| XlateOrder.NoCapitals | env_xlate/inref/gtm_env_xlate_sq.c:1016-1029 | on names without capitals the comparison is the one that minds case: it is the small letters that are ordered |
| XlateDirTree.DirTreeInsert | env_xlate/inref/gtm_env_xlate_sq.c:771-814 | fails exactly on another global directory for the path; a path that is there leaves the tree as it was, and otherwise the entry is the one new node |
| XlateDirTree.OneEntry | env_xlate/inref/gtm_env_xlate_sq.c:771-814 | a tree has at most one entry for a path |
| XlateDirTree.DirTreeSearch | env_xlate/inref/gtm_env_xlate_sq.c:900-927 | the search gives the entry of the path, and NULL exactly if there is none |
| XlateDirTree.SearchFinds | env_xlate/inref/gtm_env_xlate_sq.c:900-927 | a global directory is stored for a path exactly when the search finds it there |
| XlateHosts.HostTreeInsert | env_xlate/inref/gtm_env_xlate_sq.c:731-766 | fails, and then changes nothing, exactly on a name that is there in some spelling |
| XlateHosts.OneHost | env_xlate/inref/gtm_env_xlate_sq.c:731-766 | no two hosts have the same name |
| XlateHosts.LookupHost | env_xlate/inref/gtm_env_xlate_sq.c:822-847 | finds the host of a name, and NULL exactly if there is none |
| XlateHosts.FindHostByIp | env_xlate/inref/gtm_env_xlate_sq.c:873-896 | finds the first host of the tree with the address, and NULL exactly if there is none |
| XlateHosts.FirstHostIsFirst | env_xlate/inref/gtm_env_xlate_sq.c:873-896 | the first host with an address is the one that preorder meets first |
| XlateView.SavedExtends | env_xlate/inref/gtm_env_xlate_sq.c:591-664 | saving a record keeps all hosts and entries, never changes a tree that is there, and lets no hosts with different trees come to share one |
| XlateView.SharesIff | env_xlate/inref/gtm_env_xlate_sq.c:593-607 | a new host and the host with its address have one and the same tree, not NULL, exactly when that host has a tree by then |
| XlateView.ExtendsTransitive | env_xlate/inref/gtm_env_xlate_sq.c:591-664 | what one record keeps is kept over any number of records |
| XlateView.RefusedIff | env_xlate/inref/gtm_env_xlate_sq.c:652-664 | a record is refused by the tree exactly when an earlier record gives its path another global directory, for its host or one that shares the tree |
| XlateView.StoredIffRecorded | env_xlate/inref/gtm_env_xlate_sq.c:591-664 | the tree of a host holds exactly what the records say of the hosts that share it |
| XlateLayout.FindNext | env_xlate/inref/gtm_env_xlate_sq.c:571-664 | what one record does to the address and the table of any name |
| XlateLayout.LayoutKeeps | env_xlate/inref/gtm_env_xlate_sq.c:508-553 | from any record to any later one known names keep their address, and a table once there stays the table of its name: sharers share for good |
| XlateLayout.TableIsOpened | env_xlate/inref/gtm_env_xlate_sq.c:593-640 | a table was opened by a record with a path, for a name with the same address; so names share a table exactly when one record opened it for both, and have one address |
| XlateLayout.NewcomerSharesIff | env_xlate/inref/gtm_env_xlate_sq.c:593-607 | by the records alone: a new name shares the table of the first name with its address exactly when that has one by then |
| XlateLayout.OwnTableIff | env_xlate/inref/gtm_env_xlate_sq.c:367-381 | our own name has a table exactly when a record gives our own name a path |
| XlateLayout.FitUpToIff | env_xlate/inref/gtm_env_xlate_sq.c:508-553 | reading one record after the other without a clash is the same as every record fitting |
| XlateDrawn.DrawnStep | env_xlate/inref/gtm_env_xlate_sq.c:571-664 | saving a record in the database, with its trees by identity, is the step of the layout |
| XlateDrawn.LoadStep | env_xlate/inref/gtm_env_xlate_sq.c:508-553 | the next record is accepted exactly when it fits by the records alone, and then the database is laid out as they say and holds them all |
| XlateDrawn.PathLoads | env_xlate/inref/gtm_env_xlate_sq.c:508-553 | when every record has been accepted, all of them fit and the database is the one laid out |
| XlateDrawn.StoppedDoesNotFit | env_xlate/inref/gtm_env_xlate_sq.c:508-553 | when the reading ends early, the records do not all fit |
| XlateDrawn.PathGrows | env_xlate/inref/gtm_env_xlate_sq.c:508-553 | from any record of the file to any later one no host is lost, no tree that is there is exchanged, no two trees are joined and no entry is lost |
| Xlate.Translator.SaveHost | env_xlate/inref/gtm_env_xlate_sq.c:673-727 | adds the host with the given tree and changes no tree; NULL exactly if the name is there |
| Xlate.Translator.HostFor | env_xlate/inref/gtm_env_xlate_sq.c:587-607 | the host of the record, new or known, with the tree of the first host in preorder that has its address; the duplicate failure cannot happen |
| Xlate.Translator.SaveTableEntry | env_xlate/inref/gtm_env_xlate_sq.c:571-664 | the whole new database, on the heap, is the one that saving the record gives on values, and the result says whether the tree agrees; both trees stay ordered, and different trees of directories share no node |
| Xlate.Translator.ReadRecords | env_xlate/inref/gtm_env_xlate_sq.c:508-553 | the loop takes the records in order and ends at the first one that is incomplete or refused |
| Xlate.Translator.ReadDirTable | env_xlate/inref/gtm_env_xlate_sq.c:475-561 | succeeds exactly when the file is read to its end and, by the records alone, every one is complete and clashes with none before; the database then holds them as laid out, and has only grown from each record to every later one |
| Xlate.Translator.Initialize | env_xlate/inref/gtm_env_xlate_sq.c:404-466 | the service works exactly when nothing is missing and the records of the file fit, which depends on what the call finds and on nothing else; all records are then in the database |
| XlateService.ChopKeepsFirstPart | env_xlate/inref/gtm_env_xlate_sq.c:441-445 | of the own host name its first part stays, with any dots before it |
| Xlate.Translator.AskedIsDrawn | env_xlate/inref/gtm_env_xlate_sq.c:340-365 | no host or an empty one means ours, "localhost" our name, and any other name the host of that name or none: what the search in the tree of hosts finds is what the records lay out |
| Xlate.Translator.GtmEnvXlate | env_xlate/inref/gtm_env_xlate_sq.c:265-398 | a broken service answers nothing else for good, a working one is never changed by a request, the first request initializes it, and every answer of a working one is a function of what the first request found and of the request |
| Xlate.Translator.AnswerIsExpected | env_xlate/inref/gtm_env_xlate_sq.c:340-395 | the searches through both trees give the answer that follows from the records: none for an unknown host, the path itself for a file of our host, none on our host while no record gives our own name a path, and otherwise the global directory that a record says for a name with the table of the host asked |
| XlateService.EachRecordAnswered | env_xlate/inref/gtm_env_xlate_sq.c:340-395 | after a good start every record is answered for its host, with exactly those two exceptions |
| XlateService.OnlyRecordsAnswer | env_xlate/inref/gtm_env_xlate_sq.c:383-395 | a path is translated only as some record says, for a name with the same table and the same address |
| XlateService.SharersAnswer | env_xlate/inref/gtm_env_xlate_sq.c:354-395 | names that share a table have one address and get the same answers |
| XlateAnswers.OursIs | env_xlate/inref/gtm_env_xlate_sq.c:441-456 | our own name is the host name up to the first dot behind its first part |
| XlateAnswers.RecordIsFound | env_xlate/inref/gtm_env_xlate_sq.c:318-395 | after a good start a request finds the global directory of a record, cut to 4096 bytes, with or without a slash behind the path, with the host in any case of letters, and also for the current directory; except for a file of our own host, and on our host while no record names it |
| XlateAnswers.OwnRecordIsFound | env_xlate/inref/gtm_env_xlate_sq.c:340-395 | a record for "localhost" or our own name, in any case of letters, is found by a request for either of them or for no host |
| XlateAnswers.FoundIsRecorded | env_xlate/inref/gtm_env_xlate_sq.c:383-395 | what is found is the global directory of a record for that path, which is not one for "dummy" |
| XlateAnswers.UnknownIff | env_xlate/inref/gtm_env_xlate_sq.c:354-364 | a host is not found exactly when it is not ours and no record has it, in any case of letters |
| XlateAnswers.NothingFound | env_xlate/inref/gtm_env_xlate_sq.c:301-364 | an unknown host has no translation; a request without a path fails where there is no current directory |
| XlateAnswers.ErrorIs | env_xlate/inref/gtm_env_xlate_sq.c:301-395 | which of its errors a failing request gets |
| XlateAnswers.StartFails | env_xlate/inref/gtm_env_xlate_sq.c:404-561 | the start fails when the memory functions, our name, our address or the file are missing or cannot be read, when a record lacks something, and when two records for one host give a path two global directories |
| XlateAnswers.StartsWell | env_xlate/inref/gtm_env_xlate_sq.c:404-561 | it goes well when nothing is missing and no two records give one path two global directories |
| Xlate.AliasIsLost | env_xlate/inref/gtm_env_xlate_sq.c:367-381 | a translation file with one record, for an alias of our host, whose path is not found |
| Text.AtoiItoa | go/inref/pseudoBank_account.go:51-55 | every integer, negative ones too, is read back from its text |
| Bank.LoadableIff | go/inref/pseudoBank_account.go:34-58 | an account can be loaded exactly when its node is there and its text has a bar; the program panics on the others |
| Bank.LoadSaved | go/inref/pseudoBank_account.go:34-87 | what is saved of an account is loaded again |
| Bank.HistNumbers | go/inref/pseudoBank_history.go:60-62 | amount and end balance of a history record are read back |
| Bank.LogNumbers | go/inref/pseudoBank_trnLog.go:64-67 | account, amount and end balance of a log record are read back |
| Bank.HistFields | go/inref/pseudoBank_history.go:60-62 | all fields of a history record, in their order |
| Bank.LogFields | go/inref/pseudoBank_trnLog.go:64-67 | all fields of a log record, in their order |
| Bank.TransferWrites | go/inref/pseudoBank.go:178-257 | a transfer moves the amount and counts a history record more for each account; its history and log records have the comment, the time, the account, the amount and the reference or user of the transfer, and the end balances that the accounts now have |
| Bank.TransferConservesIff | go/inref/pseudoBank.go:178-204 | a transfer between existing accounts keeps the sum of the balances if and only if the accounts differ, for both are loaded before either is saved |
| Bank.TransferKeepsHistory | go/inref/pseudoBank.go:193-229 | a transfer between different accounts continues the histories of both and leaves those of all others alone |
| BankRuns.PicksDiffer | go/inref/pseudoBank.go:82-86 | the accounts drawn are different and exist |
| BankRuns.PicksIff | go/inref/pseudoBank.go:82-86 | which accounts can be drawn: any two different ones, except that the last account receives from the last but one only |
| BankRuns.OpeningNodes | go/inref/pseudoBank.go:118-151 | the opening database has "1|10000000" for each account from 100001 on, a first history record for it, and nothing else |
| BankRuns.RefsDiffer | go/inref/pseudoBank.go:80-81 | references of different transfers, of whatever workers, do not collide |
| BankRuns.TotalConserved | go/inref/pseudoBank.go:72-91 | after every sequence of commits of any workers the sum of the balances is N*10000000 |
| BankRuns.HistoriesInOrder | go/inref/pseudoBank.go:193-229 | after every sequence of commits each account has history records 1..HistSeq and no others, whose end balances lead by their amounts from 10000000 to the current balance |
| BankRuns.LogsKeptAndBalanced | go/inref/pseudoBank.go:230-257 | after every sequence of commits each transfer has its own two log records, which name its accounts and add up to zero |
| BankRuns.PostingsKept | go/inref/pseudoBank.go:72-91 | after every sequence of commits each transfer, of the amount 1 and under the reference of its worker and number, has its two log and two history records with all their fields; those of an account agree in the end balance, and no two transfers have one reference |
| BankProgram.AccountRecord.Load | go/inref/pseudoBank_account.go:34-58 | the record holds the account of the database, a restart is passed on, and only a missing or broken account panics |
| BankProgram.AccountRecord.Save | go/inref/pseudoBank_account.go:60-83 | the node of the account, and no other, is set to its text |
| BankProgram.HistRecord.Save | go/inref/pseudoBank_history.go:35-58 | the node of the history record, and no other, is set to its text |
| BankProgram.TrnLog.Save | go/inref/pseudoBank_trnLog.go:39-62 | the node of the log record, and no other, is set to its text |
| BankProgram.Posting.Attempt | go/inref/pseudoBank.go:176-257 | an attempt that gets through applies the transfer, whatever earlier attempts have left in the key and the buffer |
| BankProgram.Posting.Try | go/inref/pseudoBank.go:172-262 | an attempt, made after others have committed, applies the transfer to the database as they have left it, or leaves it as they have left it |
| BankProgram.Posting.PostTransfer | go/inref/pseudoBank.go:154-262 | whatever the restarts and whatever others commit between the attempts, the transfer is applied once to the database as the others have left it |
| BankProgram.InitData | go/inref/pseudoBank.go:95-152 | the two loops build the opening database |
| BankProgram.Teller.NextTransfer | go/inref/pseudoBank.go:79-88 | one pass of a worker commits exactly the transfer of its turn, after turns of others only, and does not panic, since the run so far keeps all accounts |
| BankProgram.Teller.Work | go/inref/pseudoBank.go:72-91 | after any number of passes the database is the one to which the commits of all workers lead, and the worker has made one turn a pass |
| BankProgram.Database.BooksAreInOrder | go/inref/pseudoBank.go:72-91 | the nodes of the program's database are those of the run of all committed transfers, however interleaved: the sum is conserved and every history is in order |
| BankProgram.Database.RecordsAreKept | go/inref/pseudoBank.go:72-91 | the same of the nodes of the program's database |
| BankRuns.PastIsRun | go/inref/pseudoBank.go:72-91 | the turns that the workers have committed are a run of the bank on values, which has its invariant |
| Escaping.EscapeString | com/audit_listener.c:146-171 | leaves the escaped text, a terminator after a pair, and all else as it was; the writes stay within the target exactly when it has the room |
| Escaping.UnescapeEscape | com/audit_listener.c:146-171 | a decoder gives back every message |
| Escaping.EscapeIs | com/audit_listener.c:153-170 | a backslash, a newline and a NUL become a backslash with a backslash, an n and a 0; every other character stays |
| Escaping.EscapeIsPlain | com/audit_listener.c:146-171 | escaped text has no newline and no NUL |
| Escaping.TwiceIsEnoughIff | com/audit_listener.c:139-145 | twice the length is enough exactly when the message is empty or has an ordinary character; one byte more always is |
| Escaping.TwiceIsNotEnough | com/audit_listener.c:139-145 | one newline needs three bytes |
| AuditLog.Listener.Receive | com/audit_listener.c:739-755 | every message of at most 2047 bytes adds its line to the log: the date, a semicolon and a space, the message, escaped on a Unix socket, and a newline; all writes stay within the buffers |
| AuditLog.Listener.Serve | com/audit_listener.c:720-757 | any sequence of messages adds the lines of those that are not empty, in order |
| AuditLog.LogIsRead | com/audit_listener.c:748-754 | the log of any messages on a Unix socket splits back into exactly those messages with their dates |
| AuditLog.RawLogIsReadIff | com/audit_listener.c:345-355 | without escaping the log of any sequence of messages reads back as those messages exactly when none of them has a newline or a NUL |
| Collation.Transform | com/col_reverse.c:72-91 | the loop maps every byte through the table, or fails exactly when the result does not fit |
| Collation.TransformTerminated | com/col_polish.c:88-155 | the same with a NUL behind the result, whose write is past the destination exactly when the result fills it |
| Collation.BackUndoesForwardIff | com/col_polish.c:88-155 | for any tables the way back undoes the way there for all strings if and only if the tables are inverse |
| Polish.PolishUndone | com/col_polish.c:28-155 | with the tables of the file each way undoes the other on every string, and so it does in the reverse collation |
| Polish.PolishThenReverseIsIdentity | com/col_polish_rev.c:28-155 | the two files have each other's tables: polish followed by reverse polish is the identity, and the other way round |
| PolishOrder.AlphabetPlaces | com/col_polish.c:28-56 | the place of every byte in the table is its place in the alphabet written out in ISO 8859-2 |
| PolishOrder.PolishOrderIff | com/col_polish.c:88-123 | the images of two strings are in the order of bytes exactly when the strings are in the order of that alphabet |
| PolishOrder.PolishLetters | com/col_polish.c:28-56 | the letters of Polish come in the order of its dictionaries, each small one before its capital |
| Collation.ReversedTwice | com/col_reverse.c:72-112 | the reversing table undoes itself |
| Collation.ReversedOrderIff | com/col_reverse.c:72-91 | the reversing table turns the order of two strings round exactly when neither is a prefix of the other |
| Hindi.HindiNumReverse | com/col_unicode_numeric.c:47-96 | the copy and the in-place loop leave the transformation of the string and its padding in the destination, or only NULs when the string does not fit; they look behind the destination exactly when the string fills it and ends in the first one or two bytes of a character |
| Hindi.FlipSums | com/col_unicode_numeric.c:84-85 | the third byte of a character that begins with 224, 165 and its image add up to 341, or to 85 when the byte is at most 85; every other byte stays |
| Hindi.XformTwiceIff | com/col_unicode_numeric.c:47-96 | the transformation undoes itself exactly when only NULs follow a NUL, and only NULs a flipped third byte 85 |
| Hindi.HindiDigitsTwice | com/col_unicode_numeric.c:47-96 | it undoes itself on all strings of Hindi digits |
| Hindi.HindiOrder | com/col_unicode_numeric.c:70-86 | it turns round the order of strings of Hindi digits of one length |

## Left out

- YottaDB itself: gets, sets and deletes are atomic, an increment is an atomic fetch-and-add, and a
  transaction commits at once or leaves nothing behind. Locks, journals, replication and regions are
  not part of this model.
- Errors of the API that end a program, allocation, output, sleeping and timing out. A subscript of
  more than 18 digits is the one error of the solver that is modelled.
- The solver's variables i, maxpath, index, tmp and streams are integers without bound. That n does not overflow is proved.
- Solver inputs with endnum below 2, fewer than one stream or a negative block size; the program says that it does not check its input.
- `threeenp1B1.go` has the same protocol with closures and is not modelled a second time.
- SolverProgram.Goroutine.DoBlk: is given an allowance of steps for each walk, since Dafny does not accept loops that may not end, and is left in the middle of a walk that needs more; the theorems on the step machine are without it.
- ImptpIndex.NoIndexTwiceIff: that root has order prime-1 is a hypothesis on the setup, proved for the configured values only.
- ImptpJob.ExactlyOnce: is about TP mode, in which ^lasti commits with the data. Without TP it is set later, and a crash between the two repeats a loop.
- The stages of a loop of imptp other than stage 1 are one step that leaves the index, the loop number and ^lasti alone; the M code called from them is not part of this model. The data of stage 1 is one node per index.
- Fairness and speed of scheduling: the machines allow every interleaving, also such as no scheduler produces.
- Name service, `stat`, `getcwd` and the reading of lines in `gtm_env_xlate_sq.c`: records come as tokens with the address of their host, and what the file system says is an argument of the request. Failing allocations are left out.
- Names without NUL characters are assumed in `gtm_env_xlate_sq.c`, case is folded for ASCII letters, and the trailing slash that it removes in the caller's own string is removed from a copy.
- The texts of error messages are left out; each is a value of its own, except that a failed start is one value whatever its cause.
- Balances and history numbers of the bank are integers without bound, and texts fit their buffers.
- Text.Atoi: gives the number for digits beyond the range of an int too, where the program would clamp it.
- The other workers of the bank are any sequence of their turns before an attempt; what an attempt that is then cut off has read of an older state is left out, for nothing of it remains.
- The first initialization of the bank is a loop of sets; the accounts of a bank that is used again are not modelled.
- Sockets, TLS, signals and log rotation of the audit listener, and its own error messages in the log. A message comes as a string of bytes; the date is any text in the characters of its format.
- Collation version numbers and single-character collation (`gtm_ac_xutil`), `col_complex.c`, `col_chinese.c`, and the rest of the suite: drivers and small utilities that would only add easy members.
