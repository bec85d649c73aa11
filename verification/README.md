# Proofs about the four assignments

A model in Dafny of the four programs of the repository whose behaviour is hard to get
right, with proofs about every input and every run.

* **hw4, the matrix thread pool.** `PoolMachine` is a transition system of the main thread,
  the frontend and any number of backends over the two queues, the counters and the
  condition waits; a step is what a thread does between two points where another can act,
  and wakeups may be spurious. `PoolInvariant` proves what every step keeps, `PoolResults`
  that every interleaving computes the products, what the counters count and exactly when
  `tpool_synchronize` returns, `PoolProgress` that no run goes on for ever, and `PoolReach`
  which requests can be read after they were freed. `WorkDivision` and `MatrixProduct` hold
  the arithmetic, `LinkedQueue` and `PoolThreads` the queues and loops as programmed, and in
  `PoolKernel` the threads work on queues, counters and records that are changed in place.
* **hw2, the tree of friend processes.** A process is a node, a command is a call with one
  reply. `FriendRouting` is the depth-first routing of `friend.c`, `FriendTree` what the
  commands mean on whole trees, `FriendAdopt`, `FriendText` and `FriendWire` the adoption
  as records and as bytes of the FIFO, `FriendListing` and `FriendBuffers` the listing
  built by `combine`, on strings and on buffers. `FriendProcess` has the processes as
  objects with linked lists of their children, changed in place. The second implementation,
  in `test.c`, which the first is compared with, is on node objects: `ReferenceLists` has its
  queue and its array of friends, `ReferenceNodes` the breadth-first loops, `ReferenceRows`
  how a tree is read off the nodes, and `ReferenceAdopt` its Meet and Adopt.
* **hw3, the user-level threads.** `SchedMachine` takes each stretch between two switches
  as a step, and a signal as a step that can come at any yield. `SchedInvariant` and
  `SchedRuns` prove what every pass and every stretch keep, `SchedResults` lock safety,
  snapshots, seats and printed values over whole runs, `SchedQuotas` exactly when a quota
  becomes negative, `SchedEnrol` which class a thread gets, `SchedLock` when the lock lets a
  thread in and in which order a pass serves threads, `SchedOrder` the order of the ready
  queue and the length of sleeps.
  `SchedQueues` and `SchedKernel` are the circular arrays and tables changed in place.
* **hw1, the write server for train seats.** `SeatMachine` has a step for each line of a
  client, each new connection, each timeout, and each record lock or booking by another
  process. `SeatInvariant` and `SeatResults` prove that seats are exclusive and bookings
  final, `SeatLines` what each line is answered with and changes, `SeatServer` is the server
  on its tables and files.

In each part functions or a machine over values state what the code does, lemmas state what
follows for every input and every run, and classes with lists, arrays and loops are proved to
do the same in place: `PoolKernel`, `SchedKernel` and `SeatServer` take the steps of their
machines, `FriendProcess` and `ReferenceAdopt` end with the trees of the functions. `Options`,
`FiniteSets` and `Decimals` are shared by several parts.

Where the code does not do what it seems meant to do, the model follows the code and states
exactly when it goes wrong: a request with more works than cells is never finished
(`PoolResults.RestingRunOutcome`), the frontend can read a request after it was freed
(`PoolReach.GuardReadsFreedRequest`), a process adopted by itself loses its subtree
(`FriendAdopt.AdoptKeepsEverybody`), `combine` shows what malloc left behind the own info
(`FriendBuffers.OwnLineNeedsQuiet`), the reference takes any text in the listing for a
descendant (`ReferenceAdopt.AdoptMatchesReference`), its queue refuses to pop when it is full
(`ReferenceLists.NodeQueue.Pop`), a tie of preferences can take a seat that is not there
(`SchedQuotas.QuotasStayNonNegative`), and a number too large for 32 bits can name a train or
a seat (`SeatLines.ReadAs`).

`dafny verify dfyconfig.toml` checks the project.

## Model

| member | source | states |
|---|---|---|
| PoolResults.SynchronizedProducts | hw4/tpool.c:152-316 | for every number of backends, every interleaving and every list of requests: in every state behind the return of tpool_synchronize, cell i*n+j of each request holds the sum over k of a[i][k]*b[k][j] |
| PoolResults.CellsAreStoredOnce | hw4/tpool.c:170-185 | the cell a backend is about to store is still unset, and no step of any thread changes or unsets a stored cell; so each entry is written by one work |
| PoolResults.RemainingWorksAccount | hw4/tpool.c:187-198 | remaining_works of a request under way is the number of its works not yet created, plus those queued, plus those running |
| PoolResults.WorkInOnePlace | hw4/tpool.c:164-198 | each created work is queued, running or freed, and only one of these |
| PoolResults.ActiveRequestsAccount | hw4/tpool.c:287-316 | active_requests is the number of submitted requests not fully executed; when it is 0 and all are submitted, both queues are empty and no backend runs a work |
| PoolReach.GuardReadsFreedRequest | hw4/tpool.c:238-256 | some schedule lets the loop guard of the frontend read num_works from a request after it was freed, if and only if that request asks for no more works than the matrix has cells |
| PoolReach.FreedRequestIsRead | hw4/tpool.c:238-256 | already for one 1 x 1 request with one work |
| PoolResults.FreedAtLastGuard | hw4/tpool.c:238-256 | in any state of the invariant the request at the guard is freed exactly when its last work is made and all its works have run |
| PoolResults.QuiescentOutcome | hw4/tpool.c:301-335 | when no thread can move, every thread has left its loop and main is done if and only if no request asked for more works than the matrix has cells; otherwise main sleeps in tpool_synchronize, all others sleep, and exactly the oversize requests are unfinished |
| PoolResults.SynchronizedNeedsFit | hw4/tpool.c:301-316 | tpool_synchronize returns in a run only if no request is oversize |
| PoolResults.RestingRunOutcome | hw4/tpool.c:301-335 | a run that has come to rest has returned from tpool_synchronize, and joined every thread, if and only if no request is oversize |
| PoolResults.OversizeNeverReturns | hw4/main.c:57-63 | a 1 x 1 request with two works passes the checks of main.c and no run of it ever returns from tpool_synchronize |
| PoolResults.FinishedRequestIsComplete | hw4/tpool.c:189-191 | a request that has been freed was not oversize, and every cell of it is stored with its product value |
| PoolInvariant.StepKeepsInv | hw4/tpool.c:72-316 | every step of main, the frontend, a backend, and every spurious wakeup keeps the invariant of queues, places of works, counters, cells and sleepers: no wakeup is lost |
| PoolInvariant.RunKeepsInv | hw4/tpool.c:263-335 | every state of every run satisfies that invariant |
| PoolInvariant.NothingLeft | hw4/tpool.c:307-312 | behind tpool_synchronize both queues are empty, all requests are freed, and no work is queued or running |
| PoolInvariant.WorksKeepTheirRequest | hw4/tpool.c:188-191 | the request of a queued or running work has not been freed, so parent_request is never dangling |
| PoolInvariant.OneMoreToFree | hw4/tpool.c:247-249 | while the frontend still has a work to make for a request, that request has not been freed |
| PoolProgress.StepLowersRank | hw4/tpool.c:92-94 | every step but a spurious wakeup lowers a well-founded rank of requests, works and cells still to be done |
| PoolProgress.NoEndlessRun | hw4/tpool.c:152-335 | in every endless run there is, from every point on, another spurious wakeup: with none or finitely many of them every run ends or comes to rest |
| WorkDivision.SharesAreFair | hw4/tpool.c:238-245 | every created work is nonempty and lies in [0, n*n), so the clamp never fires, and any two differ by at most one cell |
| WorkDivision.NextPiece | hw4/tpool.c:238-255 | the early exit of the loop is taken exactly when all works are created; until then the next piece is nonempty and inside the matrix |
| WorkDivision.DivisionIsPartition | hw4/tpool.c:233-256 | every cell lies in exactly one created work, for every positive number of works, also beyond n*n |
| WorkDivision.StartAtEnd | hw4/tpool.c:237-255 | the works end exactly at n*n |
| WorkDivision.WorksDisjoint | hw4/tpool.c:241-255 | two different works share no cell |
| MatrixProduct.TransposedDot | hw4/tpool.c:225-229 | multiplying a row of a with a row of the transposed copy gives the entry of the product |
| MatrixProduct.CellIndex | hw4/tpool.c:177-178 | idx / n and idx % n map [0, n*n) onto the cells of the matrix, each from one idx |
| MatrixProduct.DotFitsInt | hw4/main.c:52-56 | with the entries main accepts every partial sum fits a 32-bit int for n up to 200000 |
| MatrixProduct.Calculation | hw4/main.c:13-17 | the accumulating loop returns the dot product of the two rows |
| MatrixProduct.FillTransposed | hw4/tpool.c:220-229 | the nested loop fills a fresh matrix with the transpose of b |
| PoolThreads.RunWork | hw4/tpool.c:170-185 | the loop stores the product value in every cell from start to end and touches no other cell |
| PoolThreads.DivideRequest | hw4/tpool.c:231-256 | the loop puts exactly the works of the division behind the queue, in order |
| PoolKernel.Kernel.constructor | hw4/tpool.c:263-285 | the queues, counters and records at the start are the initial state of the machine |
| PoolKernel.Kernel.MainThread | hw4/tpool.c:287-335 | what main does next on the queues and counters, in tpool_request, tpool_synchronize or tpool_destroy, is its step of the machine and keeps the invariant |
| PoolKernel.Kernel.FrontThread | hw4/tpool.c:203-260 | so is what the frontend does next: waiting, taking a request, opening it, one pass of the division, its return |
| PoolKernel.Kernel.BackThread | hw4/tpool.c:152-201 | so is what a backend does next: waiting, taking a work, storing one cell, finishing the work, its return |
| PoolKernel.Kernel.FinishWork | hw4/tpool.c:187-196 | one work less; the request is freed exactly with its last work, and main is woken exactly when that was the last active request |
| PoolKernel.Kernel.DividePass | hw4/tpool.c:238-256 | one pass of the loop is the step of the machine for the next piece, early exit and clamp included |
| LinkedQueue.Queue.Stop | hw4/tpool.c:321-330 | the stop flag is set and the contents stay |
| LinkedQueue.Queue.constructor | hw4/tpool.c:8-15 | a new queue is empty and not stopped |
| LinkedQueue.Queue.Enqueue | hw4/tpool.c:72-86 | linking behind the tail appends to the contents; the chain stays well formed |
| LinkedQueue.Queue.Dequeue | hw4/tpool.c:97-110 | unlinking the head returns the oldest element, or nothing if the queue is empty |
| FriendRouting.MeetIsAttach | hw2/friend.c:155-231 | Meet succeeds exactly when the parent is known; it then puts the friend last under the parent and changes nothing else, and otherwise leaves the tree as it was |
| FriendRouting.MeetFailKeeps | hw2/friend.c:222-229 | a process that answers "fail" to Meet has changed nothing |
| FriendRouting.GraduateIsRemove | hw2/friend.c:351-425 | Graduate of a friend below the root succeeds exactly when the name is known and takes out exactly that subtree |
| FriendRouting.DescendantsExitFirst | hw2/friend.c:317-350 | each process exits as the last of a block formed by its own subtree: all descendants before it, and nobody else in between |
| FriendRouting.ValueRouteAnswer | hw2/friend.c:429-470 | find_parent_value answers the value of P when P is known and no strict descendant of C, and fails otherwise, although a reply is turned into "fail" on its way up |
| FriendRouting.SearchesAgree | hw2/test.c:413-435 | with unique names the breadth-first search of the reference finds the node that the depth-first routing acts on |
| FriendRouting.SearchesDisagreeOnTwins | hw2/test.c:413-435 | with equal names they need not: a concrete tree |
| FriendAdopt.ReplayRebuilds | hw2/friend.c:472-513 | replaying the preorder records of a list of subtrees attaches those subtrees, in order and in shape, with values reduced, behind the children of P |
| FriendAdopt.AdoptRouteFinds | hw2/friend.c:518-562 | whoever relays it, the command writes exactly the records of the first friend called C |
| FriendAdopt.AdoptRefusal | hw2/friend.c:648-660 | Adopt is refused if and only if C is the root, P is unknown, or P is a strict descendant of C |
| FriendAdopt.AdoptOutcomes | hw2/friend.c:644-692 | each way the command ends, by what can be looked up before it: refused; blocked on the FIFO when C is unknown; a division by zero when the value of P is 0; adopted in all other cases |
| FriendAdopt.AdoptMoves | hw2/friend.c:656-683 | in all other cases, with C known and P's value nonzero, the tree afterwards is the old one without C's subtree, which is attached, reduced modulo P's value, behind P's children |
| FriendAdopt.AdoptKeepsEverybody | hw2/friend.c:656-683 | every friend is still there once if and only if P is not C; then C's subtree is last under P, has its shape with values reduced, and removing it gives the old tree without it; with P equal to C the subtree is lost |
| FriendAdopt.ReducedThenGraduated | hw2/friend.c:664-667 | the values reduced in place belong to processes that exit next; the rest of the tree does not notice |
| FriendAdopt.FriendsReduced | hw2/friend.c:472-513 | in a subtree that moves every friend is found again under its name, with the remainder of its value, an info that shows both, and the same children in the same order |
| FriendWire.WireRoundTrip | hw2/friend.c:491-495 | the lines written to the FIFO are read back as the records they were printed from |
| FriendWire.WireLength | hw2/friend.c:669-671 | a record takes at most 32 bytes |
| FriendWire.FifoReplay | hw2/friend.c:669-682 | for at most 31 friends the batch is at most 992 bytes, fits the one read of 1023 and is replayed like the records |
| FriendWire.FifoIsTransparent | hw2/friend.c:644-692 | within the limits of the assignment Adopt over the FIFO has the outcome of Adopt over records |
| FriendText.InfoRoundTrip | hw2/friend.c:136 | reading an info gives back the name and value it was printed from |
| FriendText.ParseTwoDigits | hw2/friend.c:534 | a value printed with %02d is read back, and takes two characters below 100 |
| FriendListing.CollectIsListing | hw2/friend.c:281-316 | collect, which only combines two strings at a time, returns the level-order listing, the text of the two-queue loop of the reference |
| FriendListing.LayersAreListing | hw2/test.c:471-503 | printing layer by layer gives one line per depth, left to right |
| FriendListing.CheckMatchesReference | hw2/friend.c:351-425 | Check prints for every tree and name what the reference prints for the node found, and fails exactly when the name is unknown |
| FriendListing.CollectFits | hw2/friend.c:286-311 | a reply of collect is as long as its infos with one separator each; 32 friends need at most 384 of 400 bytes |
| FriendListing.AddLaterReply | hw2/friend.c:300-309 | combining the buffer with one more child's listing gives the listing of one more child |
| FriendListing.AddFirstReply | hw2/friend.c:300-309 | the first child's reply goes below the own line, whichever branch of collect is taken |
| FriendListing.BufferStep | hw2/friend.c:293-311 | with the first i children's replies merged, the next reply gives the text for i + 1 children |
| FriendListing.BufferFits | hw2/friend.c:286-311 | no text that collect has in its buffer on the way, and no reply, is longer than the final listing |
| FriendBuffers.CombineBuffers | hw2/friend.c:233-280 | for any two buffers: the pointer loops write what the bytes say, garbage behind a terminator included, and zeros behind it |
| FriendBuffers.CombineBytesIsCombine | hw2/friend.c:233-280 | for strings that end with a newline or have a second NUL, combine reads nothing outside the buffers and writes the combination of the two strings |
| FriendBuffers.OwnLineNeedsQuiet | hw2/friend.c:240-249 | for a first string of one line, as the own info is, combine is right if and only if the byte behind its terminator is NUL, which the buffer from malloc does not promise |
| FriendBuffers.MergeReply | hw2/friend.c:294-309 | the body of collect's loop on its 400-byte buffers: the buffer holds the text with the reply merged |
| FriendBuffers.PairLines | hw2/friend.c:250-267 | the loop that joins lines: what is written and what both pointers still have to read makes up the goal |
| FriendProcess.Process.Meet | hw2/friend.c:155-231 | on the linked processes: the reply and the new tree are those of the routing function, and every list is linked and tells what the children are |
| FriendProcess.Process.LinkLast | hw2/friend.c:187-194 | the walk to the end and the new link: the entry becomes the last of the chain, and no other entry changes |
| FriendProcess.Process.Collect | hw2/friend.c:281-316 | on the linked processes and 400-byte buffers: the loop over the children returns the text of the function Collect |
| FriendProcess.Process.Exit | hw2/friend.c:317-350 | on the linked processes: the order of exits |
| FriendProcess.Process.Graduate | hw2/friend.c:364-425 | on the linked processes: the reply and the children left are those of the routing function |
| FriendProcess.Process.UnlinkChild | hw2/friend.c:397-408 | relinking head or the entry before takes exactly one child out: the list is linked again, and the other children, with all that is below them, stay in order |
| FriendProcess.Process.ChildChanged | hw2/friend.c:531-553 | a command that changes only what is below one child, and what its entry tells, keeps the process valid, its list linked, and all other children as they were |
| FriendProcess.Process.FindParentValue | hw2/friend.c:429-470 | on the linked processes: the reply is that of the routing function |
| FriendProcess.Process.BeAdopted | hw2/friend.c:472-513 | values and infos of the whole subtree, and of the entries that parents keep, are reduced in place, and the lines of its preorder records written |
| FriendProcess.Process.Adopt | hw2/friend.c:518-562 | the lines written to the FIFO, and the one subtree changed in place |
| FriendWire.ReadRecord | hw2/friend.c:678 | the scanning loops read the record that a token of the FIFO holds |
| FriendProcess.Process.ReplayText | hw2/friend.c:674-682 | the loop over the tokens of the bytes read replays the records in them, cut-off text included |
| FriendProcess.Process.AdoptSubtree | hw2/friend.c:644-692 | the whole command on the linked processes, with the bytes of the FIFO, ends like AdoptOverFifo |
| ReferenceLists.NodeQueue.Push | hw2/test.c:323-331 | pushing onto the circular array appends, and is refused only when it is full |
| ReferenceLists.NodeQueue.Pop | hw2/test.c:333-340 | popping takes the oldest element; because it compares begin with end it succeeds exactly for 0 < size < capacity |
| ReferenceLists.FriendArray.Insert | hw2/test.c:272-281 | an insertion appends and never fills a hole; it fails exactly when every slot has been used once |
| ReferenceLists.FriendArray.Remove | hw2/test.c:283-287 | a removal leaves a hole and keeps the order of the others |
| ReferenceLists.FriendArray.Friends | hw2/test.c:456-463 | the loop that stops after size friends has seen them all, in order |
| ReferenceNodes.NodeTree.Search | hw2/test.c:413-435 | the loop over the queue of nodes finds the node of what the search function finds, and never overflows the queue |
| ReferenceNodes.NodeTree.PrintLayer | hw2/test.c:477-495 | the inner loop prints one layer of nodes and collects the next |
| ReferenceNodes.NodeTree.PrintListing | hw2/test.c:471-503 | the two-queue loop prints exactly the level-order listing |
| ReferenceRows.ReducedMatches | hw2/test.c:564-581 | reducing what each node of a subtree shows reduces the subtree |
| ReferenceRows.RemovedMatches | hw2/test.c:586-595 | taking a name out of all lists of friends removes its subtree from the tree |
| ReferenceRows.AttachedMatches | hw2/test.c:597-599 | putting a name last among the friends of P attaches its subtree there |
| ReferenceAdopt.Reduce | hw2/test.c:561-582 | the loop over the queue reduces exactly the nodes of the subtree, each once |
| ReferenceAdopt.Detach | hw2/test.c:584-596 | the scan over the old parent's slots always finds the child and empties exactly its slot |
| ReferenceAdopt.JoinParent | hw2/test.c:597-599 | the child becomes the last friend of the new parent, unless all its slots were used |
| ReferenceAdopt.AdoptedMatches | hw2/test.c:552-602 | what the nodes show after these three is the old tree with the subtree taken out, reduced and attached behind the friends of P |
| ReferenceAdopt.TreeAdopt | hw2/test.c:552-602 | on node objects TreeAdopt refuses exactly if the text P occurs in the listing of the subtree; otherwise it ends with that tree, or exits exactly when all slots of P were used |
| ReferenceAdopt.TreeMeet | hw2/test.c:401-443 | on node objects the new friend is attached under the one found, or nothing changes if there is none |
| ReferenceAdopt.ListedNames | hw2/test.c:555 | the listing of a subtree shows the name of everybody in it |
| ReferenceAdopt.AdoptMatchesReference | hw2/test.c:552-602 | the processes end as TreeAdopt does, refusal or tree, if and only if the text P occurs in the listing of C exactly when P lies strictly below C |
| SchedResults.NobodyIsAbandoned | hw3/src/scheduler.c:151-168 | over every run: whenever the idle thread is picked or the scheduler returns, no thread is left ready or waiting; it has returned if and only if every thread has exited |
| SchedResults.LockIsSafe | hw3/src/thread_tool.h:139-183 | over every run: the counts are the numbers of threads inside the sections; a writer is alone, although several waiting writers can be released at once |
| SchedResults.ThreadsAreConserved | hw3/src/scheduler.c:51-110 | the live threads are shared out among running, ready, waiting and sleeping, each in one place once; no queue ever fills its array |
| SchedResults.ReturnsWhenAllExited | hw3/src/scheduler.c:164-168 | in a state of the invariant: returned if and only if every thread has exited |
| SchedResults.SomeStepEnabled | hw3/src/scheduler.c:151-168 | until the scheduler has returned a thread can go on or a signal can come, and after that neither |
| SchedResults.RunPrints | hw3/src/routine.c:17-72 | under every schedule of signals each fibonacci and pm thread has printed exactly lines 1 to i of its series, in order, and has exited exactly when line n is out |
| SchedResults.NextValuePrints | hw3/src/routine.c:22-40 | one iteration, resumed from the control block, prints the next value of the series |
| SchedResults.AlternatingSumClosed | hw3/src/routine.c:47-60 | the value of pm is (i+1)/2 for odd i and -i/2 for even i |
| SchedResults.ExpectedAt | hw3/src/routine.c:31 | the i-th expected line is number i with the i-th value |
| SchedResults.RunSnapshots | hw3/src/routine.c:85-93 | over every run: from read_lock to read_unlock the copies of q_p and q_s in the control block equal the globals |
| SchedEnrol.ClassOfEnrolment | hw3/src/routine.c:85-132 | over every run: the class printed, and the one that loses a seat, is the right one for the weights of the thread, the quotas of an earlier state in which it held the read lock, and the seats left just before |
| SchedEnrol.RightClassSays | hw3/src/routine.c:103-132 | right means: with seats in both classes pj if and only if d_p*x > d_s*y, or in a tie d_p > d_s; with a seat in one class only and no tie, that class |
| SchedEnrol.ReadEarlier | hw3/src/routine.c:85-97 | over every run: from the read lock on the copies of a thread are the quotas of a state in which it held it, and its preferences are d_p and d_s times those |
| SchedEnrol.EnrolmentStep | hw3/src/routine.c:102-132 | an enrolment is printed exactly by the step in which its thread gets the write lock, and takes the seat |
| SchedEnrol.RunEnrolments | hw3/src/routine.c:102-132 | over every run an enrolment is printed once for each thread that has its seat, and for no other |
| SchedLock.ReaderEnters | hw3/src/thread_tool.h:139-154 | a thread at read_lock goes on as one more reader, queues unchanged but for a sleeper it awakened, if and only if no thread writes; otherwise it waits behind all others |
| SchedLock.WriterEnters | hw3/src/thread_tool.h:157-171 | a thread at write_lock goes on as the only writer if and only if no thread reads or writes; otherwise it waits behind all others |
| SchedLock.TwoReaders | hw3/src/thread_tool.h:139-154 | a concrete run in which two threads read at the same time |
| SchedLock.LeavesWaiting | hw3/src/scheduler.c:73-90 | a thread leaves the waiting queue only in a pass in which the lock it waits for is free for it |
| SchedLock.FirstMustWait | hw3/src/scheduler.c:73-90 | behind every pass the first thread waiting finds its lock taken |
| SchedLock.PassTakesInOrder | hw3/src/scheduler.c:132-168 | a pass takes first those ready before, then the sleepers whose time is up by their ids, then the longest front of the waiting queue that can have its lock, last the preempted thread |
| SchedLock.PreemptedIsLast | hw3/src/scheduler.c:92-98 | a thread that a signal preempts gets its next turn behind everybody who is ready by then |
| SchedResults.RunKeepsSeats | hw3/src/routine.c:102-132 | over every run q_p + q_s plus the number of enrolled threads stays the same |
| SchedQuotas.QuotasStayNonNegative | hw3/src/routine.c:102-132 | with both quotas at 0 or above a step keeps them so if and only if it is no enrolment without a seat left, and none in the tie in which the class preferred by weight is full |
| SchedQuotas.RunQuotas | hw3/src/routine.c:102-132 | over every run: the quotas are at 0 or above at some point if and only if no earlier step was such an enrolment |
| SchedQuotas.EnoughSeats | hw3/src/routine.c:102-132 | with at least as many seats as enrolling threads only that tie can make a quota negative |
| SchedQuotas.TooFewSeats | hw3/src/routine.c:102-132 | with fewer seats every run that returns has made a quota negative |
| SchedQuotas.QuotaBelowZero | hw3/src/routine.c:103-112 | a concrete run in which that tie drives q_p to -1 although a seat of the other class is left |
| SchedResults.ReturnedRunIsComplete | hw3/src/scheduler.c:164-168 | when the scheduler has returned, every fibonacci and pm thread has printed exactly its n lines and each enrolling thread has taken one seat |
| SchedResults.GoEffect | hw3/src/routine.c:17-143 | a stretch of a thread changes that thread only, but for the sleeping time of others; the quotas change only while nobody holds the lock |
| SchedRuns.StepKeepsInv | hw3/src/scheduler.c:132-172 | every stretch of every routine and every signal keeps the invariant, and never leaves the arrays |
| SchedRuns.RunKeepsInv | hw3/src/scheduler.c:132-172 | every state of every run of up to 99 threads satisfies the invariant |
| SchedRuns.FirstPassGivesInv | hw3/src/main.c:58-112 | so does the state behind the first pass over freshly spawned threads |
| SchedRuns.EnrollStops | hw3/src/routine.c:74-143 | wherever enroll is interrupted, places, locks and what waiting threads wait for stay right |
| SchedInvariant.PassAbandonsNobody | hw3/src/scheduler.c:73-90 | a pass that picks the idle thread or returns leaves the waiting queue empty |
| SchedInvariant.HolderIsReady | hw3/src/scheduler.c:92-110 | a thread that holds the lock is in the ready queue once the previous thread has been put away |
| SchedInvariant.ReleasedStops | hw3/src/scheduler.c:73-90 | behind move_waiting_to_ready the queue is empty or the lock is held |
| SchedInvariant.PassKeepsPlaces | hw3/src/scheduler.c:132-168 | a pass puts every live thread in exactly one place |
| SchedInvariant.PassKeepsData | hw3/src/scheduler.c:132-168 | a pass changes no control block, no lock and no quota |
| SchedOrder.TakenInTurn | hw3/src/scheduler.c:151-158 | the thread at position j of the ready queue is dispatched by the pass number j + 1, whatever happens in between |
| SchedOrder.QueuePosition | hw3/src/scheduler.c:51-55 | after d passes it stands at position j - d: nobody is put before those already there |
| SchedOrder.FirstRuns | hw3/src/main.c:58-112 | the thread spawned first runs first, the others are ready behind it in the order of their ids |
| SchedOrder.FirstTurns | hw3/src/main.c:58-112 | thread number t + 1 gets its first turn in the pass number t behind the first one, whatever happens before |
| SchedOrder.GoesOnAtYield | hw3/src/thread_tool.h:123-136 | a thread that goes on without a switch stands at a yield, where a signal can preempt it |
| SchedOrder.WakesOnTime | hw3/src/scheduler.c:15-36 | a thread that goes to sleep for a time of 0 or more, and that nobody awakens, is asleep if and only if fewer than ceil(time / time_slice) signals have come; from then on it is ready or running until it goes on |
| SchedOrder.SleepsExactly | hw3/src/scheduler.c:15-36 | for any time: it is asleep if and only if the time is negative or the signals since then have not used it up |
| SchedOrder.FallsAsleep | hw3/src/thread_tool.h:186-194 | thread_sleep: a time of 0 is over within the same pass |
| SchedQueues.TcbQueue.Push | hw3/src/scheduler.c:51-61 | a push onto the circular array appends and overwrites no live slot |
| SchedQueues.TcbQueue.Drop | hw3/src/scheduler.c:153-155 | advancing the head drops the oldest thread |
| SchedQueues.TcbQueue.Front | hw3/src/scheduler.c:153 | the head slot holds the oldest thread |
| SchedKernel.PlacesGiveRoom | hw3/src/thread_tool.h:9 | while every thread is in at most one place the arrays have room for one more |
| SchedKernel.Kernel.constructor | hw3/src/main.c:58-112 | spawning: the threads are ready in order |
| SchedKernel.Kernel.ElapseAll | hw3/src/scheduler.c:23-34 | the loop over the slots takes the slice off each sleeper's time, once each |
| SchedKernel.Kernel.MoveSleepingToReady | hw3/src/scheduler.c:63-71 | the loop moves exactly the sleepers whose time is up, in the order of their slots |
| SchedKernel.Kernel.MoveWaitingToReady | hw3/src/scheduler.c:73-90 | the loop moves the longest front of the waiting queue that may go |
| SchedKernel.Kernel.HandlePreviousThread | hw3/src/scheduler.c:92-110 | the previous thread is put where its return code says |
| SchedKernel.Kernel.Schedule | hw3/src/scheduler.c:132-168 | one pass on the arrays is one pass of the state machine |
| SchedKernel.Kernel.Dispatch | hw3/src/scheduler.c:151-168 | the head of the ready queue runs, else the idle thread if somebody sleeps, else the scheduler returns |
| SchedKernel.Kernel.ThreadAwake | hw3/src/thread_tool.h:197-205 | a sleeper becomes ready at once; anybody else is left alone |
| SchedKernel.Kernel.ThreadSleep | hw3/src/thread_tool.h:186-194 | the thread enters its own slot |
| SchedKernel.Kernel.AcquireToRead | hw3/src/thread_tool.h:139-154 | read_lock and the snapshot |
| SchedKernel.Kernel.AcquireToWrite | hw3/src/thread_tool.h:157-171 | write_lock and the enrolment |
| SchedKernel.Kernel.ReleaseRead | hw3/src/routine.c:93-98 | read_unlock; the preferences are computed from the snapshot |
| SchedKernel.Kernel.ReleaseWrite | hw3/src/routine.c:136-140 | write_unlock and exit |
| SchedKernel.Kernel.NextFibonacci | hw3/src/routine.c:22-30 | the updates of one iteration of fibonacci |
| SchedKernel.Kernel.NextPm | hw3/src/routine.c:47-60 | the updates of one iteration of pm |
| SchedKernel.Kernel.Enroll | hw3/src/routine.c:74-143 | enroll from one switch to the next |
| SchedKernel.Kernel.GoOn | hw3/src/routine.c:17-143 | a whole stretch on the arrays, with the pass behind it, is the step Go and keeps the invariant |
| SchedKernel.Kernel.SigHandler | hw3/src/scheduler.c:15-36 | the handler with the pass behind it is the step Signal and keeps the invariant |
| SeatResults.SeatsAreExclusive | hw1/server.c:104-143 | a seat that a client has chosen or paid for is no other client's; seat_lock names it, this process holds the record lock, and the byte of a chosen seat is '0' |
| SeatResults.LocksNameClients | hw1/server.c:50-67 | a seat_lock that names a descriptor names a live client on that train with the seat chosen or paid |
| SeatResults.FreeSlotsHoldNothing | hw1/server.c:488-517 | a descriptor that can be given to a new client names no lock of any train |
| SeatResults.LeavingFreesOwnSeats | hw1/server.c:50-67 | a client that leaves frees exactly the seats it has, in both lock tables, and no byte of a file changes |
| SeatResults.AskingForASeat | hw1/server.c:298-313 | a request for a seat is answered with booked, cancelled, locked or chosen, each if and only if its condition holds; locked means that another process or another live client has it |
| SeatResults.AskingTwiceUndoes | hw1/server.c:114-141 | asking twice for a free seat leaves the whole server as it was |
| SeatResults.NumbersList | hw1/server.c:185-200 | the listed numbers are those of the seats with that status, in increasing order |
| SeatLines.ChoosingATrain | hw1/server.c:457-467 | a client that names train i is told Full and nothing changes if and only if every seat of it is booked; otherwise it is on that train with no seat, is shown it, and nothing else changes |
| SeatLines.AskingShowsSeats | hw1/server.c:298-313 | whatever the answer about a seat is, only that seat of that client and its lock can change, and the client is shown its train with exactly its chosen and its paid seats |
| SeatLines.Paying | hw1/server.c:273-292 | a client without a choice is told so and nothing changes; otherwise exactly its chosen seats become paid and their bytes 1, it may go on or leave, and it is shown exactly its paid seats and no chosen one |
| SeatLines.GoingOn | hw1/server.c:315-320 | after paying, "seat" leads back to the same seats |
| SeatLines.LineLeaves | hw1/server.c:253-325 | a client leaves with "exit" and with each line that is not understood, and with no other; then the slot is free, exactly its seats are unlocked in both tables, and no byte, other client or other lock changes |
| SeatLines.TimeoutLeaves | hw1/server.c:413-421 | so it is when its time is up |
| SeatLines.Accepted | hw1/server.c:488-517 | a new client is asked for its train and has no train and no seat; nothing else changes |
| SeatLines.PrintedNumbers | hw1/server.c:262-263 | the decimal notation of the number of a train or seat names it |
| SeatLines.ReadAs | hw1/server.c:262-263 | exactly those strings of digits are read as m whose value is below 2^63 and is m modulo 2^32 |
| Decimals.DigitsAreDecimal | hw1/server.c:93-102 | a string of digits is the decimal notation of its value with zeros in front |
| SeatResults.StepFile | hw1/server.c:280-288 | a step changes a byte of a file from '0' to '1' only, at a seat only, and exactly for the chosen seats of a client that pays or a seat another process books |
| SeatResults.BookingHasOneBuyer | hw1/server.c:280-288 | each such change belongs to exactly one client, whose seat becomes paid in that step, or to another process that holds the record lock while no client has the seat |
| SeatResults.PaidStaysPaid | hw1/server.c:280-291 | a paid seat stays paid until its client leaves |
| SeatResults.BookedOnce | hw1/server.c:81-91 | over every run each seat is booked at most once and stays booked |
| SeatResults.BookedIsNeverChosen | hw1/server.c:304-306 | once booked, a seat is never chosen again |
| SeatInvariant.StepKeepsInv | hw1/server.c:382-479 | select, cancel, pay, exit, errors, timeout, reuse of a descriptor and the other processes keep the invariant; num_of_chosen_seats is the number of chosen seats |
| SeatInvariant.RunKeepsInv | hw1/server.c:382-479 | every state of every run satisfies it |
| SeatInvariant.StartedInv | hw1/server.c:551-586 | so does the server before its first client |
| SeatInvariant.SelectKeepsLocal | hw1/server.c:104-143 | selecting or cancelling an unbooked seat keeps client and train in agreement and touches no seat of another client |
| SeatInvariant.PayKeepsLocal | hw1/server.c:280-290 | so does paying |
| SeatInvariant.LeaveKeepsInv | hw1/server.c:415-419 | unlock and free_request keep the invariant |
| SeatServer.ReadIsNumber | hw1/server.c:93-102 | the loop accepts exactly the strings of digits, the empty one included |
| SeatServer.ReadNumber | hw1/server.c:298 | the value of the digits, capped and cut to 32 bits |
| SeatServer.WriteServer.constructor | hw1/server.c:551-586 | the tables before the first client |
| SeatServer.WriteServer.ReleaseSeats | hw1/server.c:50-67 | the loop frees every lock of the client on its train, and no other |
| SeatServer.WriteServer.Disconnect | hw1/server.c:415-419 | unlock, close and free_request |
| SeatServer.WriteServer.CheckAllOne | hw1/server.c:68-79 | true exactly when no seat byte is '0' |
| SeatServer.WriteServer.SelectSeat | hw1/server.c:104-143 | the tables after a choice, a refusal or a cancellation, and what is told |
| SeatServer.WriteServer.PayForSeats | hw1/server.c:280-290 | the loop pays for every chosen seat of the client and writes no other byte |
| SeatServer.WriteServer.BookingInfo | hw1/server.c:174-208 | the loop lists chosen and paid seats |
| SeatServer.WriteServer.HandleSeat | hw1/server.c:272-314 | the SEAT branch |
| SeatServer.WriteServer.HandleShift | hw1/server.c:457-469 | the SHIFT branch |
| SeatServer.WriteServer.HandleLine | hw1/server.c:253-326 | a complete line from a live client does on the tables what it does in the state machine, gives the same replies and keeps the invariant |
| SeatServer.WriteServer.AcceptClient | hw1/server.c:488-517 | a new client is the step Accept and keeps the invariant |
| SeatServer.WriteServer.Expire | hw1/server.c:413-421 | a timeout is the step Timeout and keeps the invariant |

## Left out

hw4
- The frontend's copy of num_works: after the last work the guard at hw4/tpool.c:238 may read freed memory; the machine takes the value as still being there, and `PoolReach.GuardReadsFreedRequest` says for which requests that happens.
- tpool_destroy before tpool_synchronize: main.c calls them in this order only, and with both stop flags set early the frontend would not drain.
- Mutexes as objects: a critical section is one step, and the read of the two queue sizes in tpool_synchronize without their mutexes is one step with the test.
- Allocation failure, the release of the matrices bt (never freed by the code), and reading and printing of matrices in main.c.

hw2
- A second reply: the inner variable `find` of adopt (hw2/friend.c:528) hides the outer one, so a relaying process sends "fail" behind "success"; the model has one reply for each command.
- FriendBuffers.CombineBuffers: requires that the pointers meet a terminator inside the buffers and that the text fits the result; otherwise the C code reads or writes outside them.
- FriendProcess.Process.Collect: requires infos and names without newline and NUL, a listing of less than 400 bytes, and a NUL behind the own info wherever `combine` gets it first; without that NUL the reply is the one of `FriendBuffers.CombineBytes`.
- FriendAdopt.AdoptMoves: is stated for unique names, the child known and a nonzero value of P. A value of 0 divides by zero and an unknown child leaves the read of the FIFO blocked; AdoptCommand has these as outcomes of their own.
- ReferenceAdopt.TreeAdopt: is stated for friends that are in the tree, a nonzero value of P, unique names and at most 32 friends; on an unknown name the C code follows a null pointer, on a value of 0 it divides by zero. Every info is taken to start with its name.
- The old copies of info and value in the array of the former parent in test.c: a slot holds the node itself, and only names and emptiness of slots are ever read.
- A token of the FIFO shorter than the blank behind "Meet", which only a batch of more than 1023 bytes can end with: sscanf then leaves its variables as they were; the model reads empty words.
- Graduate of the root, which ends every process: `FriendProcess.Process.Exit` at the root.
- Pipes, fork, exec, waiting for children, descriptors, the messages printed for the user, and the byte limits of the commands.
- The random driver of test.c and the empty TreeCompare.

hw3
- The idle thread: after its yield the C function returns into a frame that is gone; the model lets it yield until a signal comes.
- setjmp, longjmp and signal masks: a thread goes on where its control block says; a signal can come only at a yield.
- More than 99 threads, and ids for thread_awake outside 0 to 99: both leave the arrays of the code.
- SchedOrder.SleepsExactly: requires a positive time_slice, without which a sleep grows at each signal.
- Output lines other than computed values and enrolments; the seconds spent in sleep and alarm.

hw1
- Sockets, poll, partial reads, end of file, banners and the clock: a client sends complete lines, and a timeout can come at any time.
- SeatMachine.SelectSeat: is one step, so no other process acts between F_GETLK and F_SETLK.
- The read server, and the text of the booking info around the two lists of numbers.
- Files that hold other bytes than '0' and '1' at the seats, or fewer than 80 bytes.

Everywhere
- 32-bit wrap-around, except in `SeatMachine.Atoi`; MatrixProduct.DotFitsInt bounds the sums of hw4.
