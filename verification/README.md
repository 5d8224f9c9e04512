# Concurrent counters, a ring buffer and a calculator service: a verified model

The repository holds small operating-systems programs. This project models the
concurrent ones and proves what they guarantee for any number of threads or processes,
any number of sections, any file content and every interleaving:

- **cw10**, Lamport's bakery lock around a shared counter: `Bakery*.dfy`. Every read or
  write of a shared cell is one step. The lock is mutually exclusive and first come first
  served, overtaking is bounded, tickets are bounded, and every fair schedule finishes.
- **cw9**, the same program over a mutex: `Mutex*.dfy`. It is also the abstract program:
  `Refinement.dfy` turns every bakery run into a mutex run with the same counter values,
  and the counter theorem of the bakery program is inherited from there.
- **cw7**, a producer and a consumer over a ring of five slots in shared memory:
  `Ring*.dfy`. Slots are filled, scanned, measured and copied one byte per step.
- **cw6**, a counter kept as decimal text in a file: `FileCounter*.dfy`, `Decimal.dfy`.
- **cw8**, a calculator server and its clients over message queues: `Calculator*.dfy`.

Each program has the same three layers. A state machine (`Bakery.dfy`, `Mutex.dfy`,
`Ring.dfy`, `FileCounter.dfy`, `Calculator.dfy`) gives the next step of every process;
a run is the state after an arbitrary schedule, and schedules are the only
nondeterminism. Lemmas over runs rest on one inductive invariant per program, with a
small history where the property needs the past. The classes (`BakeryThreads.dfy`,
`MutexThreads.dfy`, `RingProcesses.dfy`, `FileCounterProcesses.dfy`,
`CalculatorProcesses.dfy`) hold the arrays and variables that the programs update; every
atomic step is a method whose contract gives the whole new state, and a driver runs any
schedule. `Fairness.dfy` holds two proof rules for fair schedules: one for the end of a
whole run, used by four programs, and one for the end of a single wait, used by the
calculator service. `Sums.dfy` holds finite sums.

Assumptions: memory is sequentially consistent (C `volatile` alone does not give this);
semaphores, mutexes and queues behave as POSIX describes them; `read` of a regular file
returns the full count up to the end of the file and `write` takes everything.

Results worth knowing:

- The scan of `max_number` is the maximum of no snapshot, because each cell may be read
  twice. It still is at least every ticket held throughout the scan
  (`ScanMissesNoStandingTicket`), which is what the lock needs.
- A source file of cw7 with a NUL byte is not copied whole: the consumer stops at the
  first NUL, and the producer finishes if and only if the last chunk is at most five
  slots behind the chunk with that NUL (`QuietOutcome`, `StrandedProducer`).
- The final check of cw6 stores a NUL inside its ten-byte buffer if and only if the final
  number is below 10^9 (`FinalCheck`); every larger product up to INT_MAX has a run that
  gets there (`CheckRunsOutOfBounds`).
- The server of cw8 stops if and only if it opens a client's queue before the client has
  created it, or works on a request that divides by zero or whose value is no int
  (`ServerStopsIff`, `ServerCanStop`, `UndefinedCanStop`). While it runs, fairness brings
  every waiting client its answer (`WaitingClientIsAnswered`).

Verify with `dafny verify dfyconfig.toml` (Dafny 4.11).

## Model

| member | source | states |
|---|---|---|
| Bakery.Step | cw10/program10.c:108-194 | a move of any thread, from any state, keeps all program counters and loop indices in range |
| BakeryInvariant.InvRun | cw10/program10.c:108-149 | in every reachable state: cells agree with program counters; whoever has passed the choosing check on a choosing thread is ahead of it; scans cover the tickets of those ahead; whoever has passed the tests on i goes before i |
| BakeryInvariant.CriticalGoesFirst | cw10/program10.c:129-149 | a thread inside has a ticket not above any standing ticket, and nobody else is inside |
| BakeryInvariant.PassesChoosing | cw10/program10.c:133 | only a read of choosing[i] == 0 brings a thread past the choosing check on i |
| BakeryInvariant.PassesInOrder | cw10/program10.c:138 | the three separate reads of the waiting condition let a thread past i only if it goes before i in (ticket, id) order, or i has no ticket |
| BakeryInvariant.OtherMoveCovers | cw10/program10.c:114-116 | between the two reads of a cell no other thread can drop the ticket that the scan relies on |
| BakeryProperties.MutualExclusion | cw10/program10.c:122-149 | no two threads are ever between the return from lock and the write in unlock |
| BakeryProperties.ScanMissesNoStandingTicket | cw10/program10.c:108-120 | the result of max_number is at least every ticket held when the scan began and still held when it ends |
| BakeryProperties.TicketIsNext | cw10/program10.c:108-125 | every ticket is one more than a value that its thread read in some cell during the scan for it; with the row above this bounds tickets from both sides |
| BakeryProperties.StaysAhead | cw10/program10.c:146-149 | a thread that does not run unlock keeps its ticket and its place ahead of later arrivals |
| BakeryProperties.FirstComeFirstServed | cw10/program10.c:122-149 | if p holds a ticket when i sets choosing[i], then i is inside only after p has run unlock |
| BakeryProperties.OvertakenOnce | cw10/program10.c:124-143 | while i waits with a ticket, each other thread returns from lock at most once |
| BakeryProperties.BoundedBypass | cw10/program10.c:124-143 | while i waits with a ticket, it is overtaken at most numThreads - 1 times in all |
| BakeryProperties.TicketBound | cw10/program10.c:122-126 | every ticket is at most the number issued so far and at most numThreads * numSections; so is the sum in lock |
| BakeryProgress.SomeoneGetsOn | cw10/program10.c:129-143 | while a thread is unfinished, some unfinished thread is in no futile wait |
| BakeryProgress.NoDeadlock | cw10/program10.c:129-143 | the same for every reachable state |
| BakeryProgress.StepRank | cw10/program10.c:129-143 | a measure never rises, and falls on every move but those inside the waiting condition that stay at the same i, those that leave the check on choosing[i] where it is, and those of finished threads |
| BakeryProgress.StepFineRank | cw10/program10.c:129-143 | a finer measure falls on every move of an unfinished thread that does not send it back to the head of a wait loop, and these returns raise it by at most two |
| BakeryProgress.UsefulMovesBound | cw10/program10.c:85-103 | in every run the moves that are not returns to the head of a wait loop are at most 3 * numThreads * (1 + numSections * (11 + 4 * numThreads)) plus twice the number of these returns |
| BakeryProgress.SpinKeepsHelper | cw10/program10.c:133-141 | spinning of others never disables a thread that can get on, and its own rounds bring it out of the wait |
| BakeryProgress.FairRunsFinish | cw10/program10.c:85-103 | every fair schedule finishes all threads, and then num is numThreads * numSections |
| BakeryAlone.SectionAlone | cw10/program10.c:122-194 | a section that meets no other thread takes exactly 3 * numThreads + 5 moves, its ticket is 1 until the release, and it leaves everything as it was but the counter, which is one higher |
| BakeryAlone.RoundOfTests | cw10/program10.c:138 | one round of the waiting condition goes back to its head after two reads for a smaller ticket and after three for an equal ticket of a smaller id, and leaves the wait in all other cases |
| BakeryThreads.BakeryProgram.constructor | cw10/program10.c:43-62 | the arrays start as the initial state |
| BakeryThreads.BakeryProgram.MaxNumber | cw10/program10.c:108-120 | run alone, the loop returns the largest cell |
| BakeryThreads.BakeryProgram.BeginSection | cw10/program10.c:124 | on the arrays: choosing[t] is set, or the thread ends after its last section; nothing else changes |
| BakeryThreads.BakeryProgram.ReadFirst | cw10/program10.c:110 | on the arrays: the running maximum is number[0]; no cell changes |
| BakeryThreads.BakeryProgram.CompareNext | cw10/program10.c:112-114 | on the arrays: the second read follows exactly if the first read is above the running maximum |
| BakeryThreads.BakeryProgram.TakeNext | cw10/program10.c:116 | on the arrays: the running maximum becomes what the second read finds |
| BakeryThreads.BakeryProgram.PublishTicket | cw10/program10.c:125 | on the arrays: number[t] is one more than the running maximum |
| BakeryThreads.BakeryProgram.LeaveDoorway | cw10/program10.c:126-131 | on the arrays: choosing[t] is cleared and the loop over the others begins, skipping t |
| BakeryThreads.BakeryProgram.CheckChoosing | cw10/program10.c:133-136 | on the arrays: the thread waits exactly while choosing[i] is set |
| BakeryThreads.BakeryProgram.CheckZero | cw10/program10.c:138 | on the arrays: number[i] == 0 ends the wait |
| BakeryThreads.BakeryProgram.CheckLess | cw10/program10.c:138 | on the arrays: a smaller ticket of i sends the thread back to the loop head |
| BakeryThreads.BakeryProgram.CheckTie | cw10/program10.c:138 | on the arrays: an equal ticket of a smaller id sends the thread back, anything else ends the wait |
| BakeryThreads.BakeryProgram.LoadCount | cw10/program10.c:182 | on the arrays: the load of the counter is a step of its own |
| BakeryThreads.BakeryProgram.IncrementCount | cw10/program10.c:185 | on the arrays: the increment touches the thread's own count only |
| BakeryThreads.BakeryProgram.StoreCount | cw10/program10.c:191 | on the arrays: the store of the counter is a step of its own |
| BakeryThreads.BakeryProgram.Unlock | cw10/program10.c:146-149 | on the arrays: number[t] is cleared and the section is done |
| BakeryThreads.BakeryProgram.MoveThread | cw10/program10.c:151-208 | each thread's next step is the step of the state machine |
| BakeryThreads.RunProgram | cw10/program10.c:78-103 | under any schedule the arrays end in the state of the run, and the final check succeeds once all threads are joined |
| Mutex.InvRun | cw9/program9.c:100-124 | in every reachable state the mutex is held by exactly the thread inside, and the counter is the number of stored increments |
| Mutex.MutualExclusion | cw9/program9.c:108-118 | no two threads are between lockMutex and unlockMutex |
| Mutex.NoLostUpdate | cw9/program9.c:112-115 | with load, increment and store as separate steps, the counter is stored as 1, 2, 3, ... and equals the increments stored so far |
| Mutex.FinalCount | cw9/program9.c:69-85 | after all joins the counter is threads times sections |
| MutexThreads.MutexProgram.constructor | cw9/program9.c:59-67 | the mutex starts free and the counter at 0 |
| MutexThreads.MutexProgram.LockMutex | cw9/program9.c:100-108 | on the class: the mutex is taken if free, the thread waits if not, and ends after its last section |
| MutexThreads.MutexProgram.UpdateCounter | cw9/program9.c:112-115 | on the class: load, increment and store are three steps |
| MutexThreads.MutexProgram.UnlockMutex | cw9/program9.c:118 | on the class: the mutex is freed and the section is done |
| MutexThreads.MutexProgram.MoveThread | cw9/program9.c:91-126 | each thread's next step is the step of the state machine |
| MutexThreads.RunProgram | cw9/program9.c:62-85 | under any schedule the class ends in the state of the run, and the final check succeeds once all threads are joined |
| MutexThreads.FairRunsFinish | cw9/program9.c:69-85 | every fair schedule finishes all threads with the counter complete |
| MutexThreads.MovesOfRun | cw9/program9.c:91-126 | all complete runs have the same number of moves that change the state: five for every section and one for every thread |
| Refinement.Simulates | cw10/program10.c:164-194 | one bakery move is the same move of the mutex program or changes nothing there; a return from lock finds the mutex free |
| Refinement.BakeryRefinesMutex | cw10/program10.c:164-194 | every bakery run stands for a mutex run of the moves they share |
| Refinement.SameStores | cw10/program10.c:182-191 | both runs store the same counter values in the same order |
| Refinement.NoLostUpdate | cw10/program10.c:181-194 | under the bakery lock the counter is stored as 1, 2, 3, ... |
| Refinement.CounterCountsSections | cw10/program10.c:181-194 | at every moment the counter is the completed sections, plus one for a thread that has stored and not unlocked |
| Refinement.FinalCount | cw10/program10.c:85-103 | after all joins num is numThreads * numSections |
| RingInvariant.InvRun | cw7/producer.c:75-131 | in every reachable state: live slots hold their chunks, both processes are where the counts of posted slots say, and the semaphores count free and filled slots |
| RingInvariant.OldSlotKept | cw7/producer.c:90-97 | a write of the producer leaves every older live slot as it is |
| RingInvariant.WriteKeepsOthers | cw7/producer.c:90-97 | what the consumer knows of its slot survives every write of the producer |
| RingProperties.StoredText | cw7/producer.c:96-97 | the text that lastOne and strlen see in a live slot is the text of its chunk, whatever bytes stand behind the mark |
| RingProperties.NoCollision | cw7/producer.c:85-129 | the two processes are never in the same slot at once |
| RingProperties.PermitsConserved | cw7/program7.c:78-84 | semP + semC + processes between wait and post is always NBUF |
| RingProperties.IndicesFollowCounts | cw7/producer.c:125 | between slots insert and extract are the produced and consumed counts modulo NBUF, at most NBUF apart; at the ends both stand on the last slot |
| RingProperties.SegmentContents | cw7/producer.c:90-97 | in every run the hundred cells are the bytes read so far, dealt in turn over the bytes from the start, and one NUL behind the whole file; nothing else is written |
| RingProperties.ConsumerReadsSlotText | cw7/smem.c:66-73 | in every run the consumer decides as lastOne does on the whole slot, and strlen and the copy stay inside the slot |
| RingProperties.OutputIsText | cw7/consumer.c:74-128 | the output is always a prefix of the bytes before the first NUL, and exactly these when the consumer is done |
| RingProperties.BytesConserved | cw7/consumer.c:74-128 | written bytes, bytes in the ring in order and unread bytes are the file at every moment; for a file with a NUL, until the consumer is done |
| RingProperties.RefinesQueue | cw7/producer.c:79-131 | every step is a step of a queue of capacity five: a producer post appends the next chunk to a queue that is not full, a consumer post removes the oldest text, which it has just written, nothing else changes the queue |
| RingProperties.StaleBytesNeverMatter | cw7/producer.c:96-97 | the bytes that the segment holds at the start have no effect on anything but themselves |
| RingProperties.QuietOutcome | cw7/producer.c:85-105 | the only resting states: consumer done with the whole text; producer done if and only if ProducerFits; without NULs both done, semP = NBUF and semC = 0 |
| RingProperties.ProducerFinishesOnlyIfFits | cw7/producer.c:96-105 | no run lets the producer finish when the first NUL is too early |
| RingProperties.StrandedProducer | cw7/producer.c:85 | on a file of six full slots that starts with a NUL the producer never finishes, in no run |
| RingProperties.FittingProducer | cw7/smem.h:8 | on a file of five full slots that starts with a NUL every fair schedule finishes the producer |
| RingProperties.FiveSlotsAhead | cw7/producer.c:79-131 | a producer alone, on a file of at least 100 bytes, has after 121 moves filled the segment with the first 100 bytes and waits, with semP 0, semC 5 and insert 0 |
| RingProperties.StepRank | cw7/producer.c:79-131 | a measure falls on every step of a process that is not blocked |
| RingProperties.FairRunsCopy | cw7/consumer.c:74-128 | every fair schedule comes to rest with the text copied; a file without NULs is copied whole and both processes finish |
| RingMoves.MovesCounted | cw7/consumer.c:74-128 | in every run the moves of processes that are not blocked are a function of their places and slot counts: 24 for each slot filled, 45 for each slot emptied, and the last slot by its bytes |
| RingMoves.MovesOfCopy | cw7/producer.c:75-131 | every complete copy of a file without NULs takes 69 moves for each full slot, 4 for each byte of the rest, and 11 |
| RingProcesses.Segment.constructor | cw7/program7.c:78-92 | semP starts at NBUF and semC at 0 over arbitrary bytes |
| RingProcesses.Segment.LastOne | cw7/smem.c:66-73 | the loop finds out whether the slot at extract holds a NUL |
| RingProcesses.Segment.ResetInsert | cw7/producer.c:75 | on the segment: insert starts at 0 |
| RingProcesses.Segment.WaitFree | cw7/producer.c:85 | on the segment: takes a permit of semP, or waits |
| RingProcesses.Segment.FillByte | cw7/producer.c:90-96 | on the segment: the next byte of the file goes into the slot; a full or short read returns |
| RingProcesses.Segment.MarkEnd | cw7/producer.c:97 | on the segment: a NUL goes behind a short read |
| RingProcesses.Segment.PostLastFilled | cw7/producer.c:102-104 | on the segment: semC is posted once more and the loop ends, with insert where it is |
| RingProcesses.Segment.AdvanceInsert | cw7/producer.c:125 | on the segment: insert moves on modulo NBUF |
| RingProcesses.Segment.PostFilled | cw7/producer.c:128 | on the segment: semC is posted |
| RingProcesses.Segment.ResetExtract | cw7/consumer.c:70 | on the segment: extract starts at 0 |
| RingProcesses.Segment.WaitFilled | cw7/consumer.c:79 | on the segment: takes a permit of semC, or waits |
| RingProcesses.Segment.ScanByte | cw7/smem.c:67-72 | on the segment: one turn of lastOne |
| RingProcesses.Segment.MeasureByte | cw7/consumer.c:85 | on the segment: one turn of strlen |
| RingProcesses.Segment.CopyByte | cw7/consumer.c:84-99 | on the segment: one byte of the slot goes to the output file |
| RingProcesses.Segment.PostLastFree | cw7/consumer.c:93-95 | on the segment: semP is posted once more and the loop ends |
| RingProcesses.Segment.AdvanceExtract | cw7/consumer.c:122 | on the segment: extract moves on modulo NBUF |
| RingProcesses.Segment.PostFree | cw7/consumer.c:125 | on the segment: semP is posted |
| RingProcesses.Segment.MoveProcess | cw7/producer.c:75-131 | each process's next step is the step of the state machine |
| RingProcesses.RunProgram | cw7/program7.c:104-142 | under any schedule the segment ends in the state of the run; a finished consumer has written exactly the text |
| Decimal.ScanPrinted | cw8/server.c:55 | %d reads back exactly the number that %d printed, and leaves what follows |
| Decimal.AtoiPrinted | cw6/incrementer.c:101-105 | atoi of what sprintf printed is the number, also with a NUL behind it |
| Decimal.PrintIsDecimal | cw6/incrementer.c:105 | what %d prints is the decimal notation of the number, a minus sign or none and digits without a leading zero whose positional value is the number, and no other text is |
| Decimal.ScansNumber | cw8/server.c:55 | %d reads any spaces, a sign or none, and all digits that follow, as their positional value |
| FileCounter.InvRun | cw6/incrementer.c:47-135 | in every reachable state: at most one process inside, a free semaphore guards the decimal notation of the completed increments, and each process inside holds the text its place requires |
| FileCounterProperties.SemaphoreConserved | cw6/incrementer.c:56-131 | semaphore value plus processes between wait and post is 1 |
| FileCounterProperties.FileCountsIncrements | cw6/incrementer.c:100-120 | outside the critical section the file is the decimal notation of the number of completed increments and nothing else (at 0, with the NUL of the first write), and atoi reads it back |
| FileCounterProperties.NoEarlyExit | cw6/incrementer.c:67-92 | no process reads a truncated file or leaves the loop early; all texts have at most ten characters and fit the buffer with their NUL; the text written is the decimal notation of one more than the number read |
| FileCounterProperties.FinalFile | cw6/multipler.c:131-137 | after all waits the file is the decimal notation of processes times sections and nothing else (0 keeps its NUL) |
| FileCounterProperties.FinalCheck | cw6/multipler.c:146-166 | the final read is not empty, its NUL is stored in bounds if and only if the number is below 10^9, and atoi gives the product |
| FileCounterProperties.CheckRunsOutOfBounds | cw6/multipler.c:147-161 | for every number of processes and sections with a product from 10^9 to INT_MAX, a finished run exists in which the check fills its ten bytes and stores the NUL behind them |
| FileCounterProperties.FairRunsFinish | cw6/multipler.c:131-137 | every fair schedule finishes all processes with the product in the file |
| FileCounterProperties.StepsOfRun | cw6/incrementer.c:47-135 | all complete runs have the same number of steps that change the state: six for every section and one for every process |
| FileCounterProcesses.CounterProgram.constructor | cw6/multipler.c:68-90 | the file starts as "0" and a NUL, the semaphore at 1 |
| FileCounterProcesses.CounterProgram.WaitSem | cw6/incrementer.c:47-56 | on the class: takes the semaphore, or waits, or ends after the last section |
| FileCounterProcesses.CounterProgram.ReadFile | cw6/incrementer.c:62-92 | on the class: the file goes into the buffer; an empty file ends the loop without a post |
| FileCounterProcesses.CounterProgram.ComputeNext | cw6/incrementer.c:101-105 | on the class: the buffer holds the text of the next number |
| FileCounterProcesses.CounterProgram.TruncateFile | cw6/incrementer.c:111 | on the class: the file is emptied before the write |
| FileCounterProcesses.CounterProgram.WriteFile | cw6/incrementer.c:117 | on the class: the buffer is written at the start of the file |
| FileCounterProcesses.CounterProgram.PostSem | cw6/incrementer.c:131 | on the class: the semaphore is posted and the section is done |
| FileCounterProcesses.CounterProgram.MoveProcess | cw6/incrementer.c:47-135 | each process's next step is the step of the state machine |
| FileCounterProcesses.RunProgram | cw6/multipler.c:107-166 | under any schedule the class ends in the state of the run; once all processes have ended, the check succeeds if the product is below 10^9 and stores its NUL out of bounds otherwise |
| Calculator.RequestRoundTrip | cw8/server.c:53-55 | for all numbers, also negative ones as in 3--4, and any operator character, the server parses the pid, numbers and operator that the client printed, whatever bytes follow the NUL |
| Calculator.CDivTruncates | cw8/server.c:72 | the quotient truncates toward zero |
| Calculator.Answered | cw8/server.c:61-77 | the server has an answer exactly to the operations with a value that is an int, which is the decimal notation of that value, and to every other operator, which is the text of line 75 |
| Calculator.NoValueInNumbers | cw8/server.c:61-77 | between ints, +, - and * have no value only beyond -2^31..2^31 - 1, / only for a zero divisor and -2^31 / -1 |
| Calculator.QueueNamesDiffer | cw8/client.c:49 | clients with different pids have different queue names |
| CalculatorRouting.InvRun | cw8/server.c:46-89 | in every reachable state each request in the server's queue, in work or answered is the latest one of a waiting client, and no client has two |
| CalculatorRouting.FindsOwner | cw8/server.c:80-81 | the name printed for a pid finds the queue of the client with this pid, exactly if it exists |
| CalculatorRouting.AnswerIsForLatest | cw8/client.c:75-76 | every answer that a client receives is the answer to its own latest request |
| CalculatorRouting.AnswerValue | cw8/server.c:61-77 | an answer is the value of the operation in decimal notation, and to an unknown operator the text that says so |
| CalculatorRouting.NoRequestLost | cw8/server.c:46-89 | while the server runs, a waiting client's request is at the server or its one answer is in the client's queue |
| CalculatorRouting.ServiceNotStuck | cw8/server.c:46-89 | while the server runs and a client waits, the server or this client can move |
| CalculatorRouting.ComputesResult | cw8/server.c:55-77 | in every run the server computes on the latest request of a waiting client, and goes on to that client with the result unless the operation divides by zero or its value is no int |
| CalculatorRouting.ServerStopsIff | cw8/server.c:46-89 | a run has stopped the server if and only if one of the server's moves opened the queue of a client that had not created it, or met a waiting client's latest request that divides by zero or has a value that is no int |
| CalculatorRouting.ServerStopsIffTooEarly | cw8/server.c:80-81 | the step that opens the client's queue stops the server if and only if the client has not created it yet |
| CalculatorRouting.ServerCanStop | cw8/client.c:68-72 | for every request with a value there is a run that stops the server before the client has created its queue |
| CalculatorRouting.UndefinedCanStop | cw8/server.c:72 | for every request that divides by zero or has a value that is no int there is a run that stops the server although the client has created its queue |
| CalculatorProgress.EventHelps | cw8/server.c:46-89 | every event stops the server, brings the waiting client its answer, or leaves it waiting for the same request and no further from its answer; a move of the process whose turn it is brings it closer |
| CalculatorProgress.WaitingClientIsAnswered | cw8/client.c:68-76 | along every fair sequence of events a client whose request is sent receives the answer to it, unless a server move opens a queue too early or meets an operation without a value |
| CalculatorClients.LatestWasTyped | cw8/client.c:53-83 | the request of a client that is not at its prompt is the one that its user typed at an earlier event, and the client has not been at its prompt since |
| CalculatorClients.SendsWhatWasTyped | cw8/client.c:57-68 | every message that enters the server's queue is the text of the request typed last at its sender, and the server reads it as that client's pid and that request |
| CalculatorClients.OneAnswerEach | cw8/client.c:53-83 | in every run a client has sent each accepted request once, less the one it is sending, has received one answer to each sent request, less the one it waits for, and answers sent to it are received or in its queue |
| CalculatorClients.TakenInOrder | cw8/server.c:50 | the server takes the messages in the order in which they were sent: those taken and those in its queue are those sent |
| CalculatorClients.TenRequests | cw8/queue.h:8 | the server's queue never holds more than ten requests, and a send waits exactly while it holds ten |
| CalculatorClients.TypableInNumbers | cw8/client.c:57-65 | requests in the model have at most 19 and 29 characters; all operations on numbers of up to eight digits are among them |
| CalculatorClients.RequestTextForm | cw8/client.c:65 | the request is the pid, one space and the operation, with its numbers in decimal notation |
| CalculatorProcesses.CalculatorService.constructor | cw8/server.c:39 | no queue of a client exists and the server's queue is empty |
| CalculatorProcesses.CalculatorService.TypeOperation | cw8/client.c:57-60 | on the class: a typed operation that fits becomes the latest one |
| CalculatorProcesses.CalculatorService.SendRequest | cw8/client.c:63-68 | on the class: the request enters the server's queue, or waits while it is full |
| CalculatorProcesses.CalculatorService.CreateQueue | cw8/client.c:72 | on the class: the client's queue exists and is empty |
| CalculatorProcesses.CalculatorService.ReceiveAnswer | cw8/client.c:75 | on the class: the oldest answer leaves the queue, or the client waits |
| CalculatorProcesses.CalculatorService.CloseQueue | cw8/client.c:80-83 | on the class: the client's queue is gone before the next operation |
| CalculatorProcesses.CalculatorService.ReceiveRequest | cw8/server.c:50 | on the class: the oldest request leaves the server's queue, or the server waits |
| CalculatorProcesses.CalculatorService.ComputeAnswer | cw8/server.c:55-77 | on the class: the parsed request is evaluated; undefined operations stop the server |
| CalculatorProcesses.CalculatorService.OpenQueue | cw8/server.c:80-81 | on the class: the server goes on only if the queue exists |
| CalculatorProcesses.CalculatorService.SendAnswer | cw8/server.c:86-88 | on the class: the answer enters the queue of the client that asked |
| CalculatorProcesses.CalculatorService.Happen | cw8/server.c:46-89 | each event is the event of the state machine |
| CalculatorProcesses.RunService | cw8/server.c:46-89 | under any events the class ends in the state of the run, and every received answer is for the latest request of its client |

## Left out

- Hardware and compiler reordering of memory accesses: the model is sequentially consistent.
- The thread's own ticket in the waiting condition of cw10 is read in the same step as the other ticket: no other thread writes that cell.
- Terminal output, cursor movement, sleeps and the echo buffers of cw7, which also read on behind a full slot: user interface only.
- Failures of system calls, signal handlers, atexit clean-up, process creation and argument checks; processes that are not started yet are processes that do not move yet.
- The waits of cw7/producer.c:134 and cw7/program7.c:146 for the child processes: the model ends with the two loops. (cw7/README lets the main program wait for both children; in the code it waits for the producer, which waits for the consumer.)
- Short reads of regular files and partial writes.
- cw4 and cw5, copies over a pipe and a FIFO: easier forms of the copy of cw7.
- The unsynchronised mode of cw6: it promises nothing.
- FileCounterProperties.FinalCheck: products above INT_MAX are not modelled, because the counter then overflows an int.
- cw8: what happens after a division by zero or a result outside int; the model stops the server there.
- CalculatorProcesses.CalculatorService.TypeOperation: a line of another form or length, which the client would send on as it is, leaves the model's client typing, because only two ints around one character are modelled as input.
- cw8: that a client gets its request into a full server queue is not claimed; that needs the order in which the system wakes senders. The answer to a request in the queue is CalculatorProgress.WaitingClientIsAnswered.
- cw7/pseudocode.txt and cw9/test.c, which the programs do not use.
