# Verified models of the operating-system simulators

Dafny models of the page replacement simulator, the CPU scheduling simulator,
the FAT file system and the kernel's `walk_process_tree`, with proofs about
them. `dafny verify dfyconfig.toml` checks the whole project.

## Page replacement

`DemandPaging` defines a schedule: any sequence of caches that starts empty,
never holds more than F pages and loads only the page just referenced.
`OptPolicy`, `FifoPolicy`, `LruPolicy` and `ClockPolicy` give each policy as a
step on its frames; `PagingTheorems` proves what holds of whole runs, and
`PagingSimulator` proves the array loops against the policies.

The page search compares unused frames too, and these hold -1. `PagingInput`
therefore says which references count: a reference to page -1 is lost while
fewer than F other pages have been seen. All results hold for every string of
integers in this sense; the whole input counts if and only if each -1 comes
after F distinct pages, and OPT's count is a lower bound for the whole input in
any case. The frame count is at least 1, as the input check demands.

## CPU scheduling

Arrivals and bursts are whole milliseconds and a switch costs 0.1 ms, so time
is counted in ticks of 0.1 ms and the tolerances of the code vanish. Tables
have distinct pids that are not negative, arrivals that are not negative,
bursts of at least 1 ms, and a quantum of at least 1 ms. In line 96 `eend` is
read as `end`, and the stray slash in line 311 is ignored.

`SchedModel` holds the clock, the table and the Gantt chart with its accounts,
`SchedPick` the scans. `SchedNonPreemptive`, `SchedSrtf` and `SchedRoundRobin`
give one loop iteration each as a function, `Scheduling.Scheduler` the mutable
table and chart with the loops, proved against these. `SchedStamps` reads the
times in the table off the chart.

Round robin does not see a process that arrives at the very instant a context
switch ends, because arrivals are collected from after the switch on. A state
about to do this is a *collision*. The project proves that nobody is ever
missed if and only if the run has no collision, that everybody finishes if and
only if each missed arrival is followed by an idle refill, that tables with at
most eleven turns cannot collide, and that one with twelve can.

## FAT file system

`FatModel` gives the four operations on values, for any number of blocks up to
0xFFFF and any number of entries, with the 32-byte block. `FatChains.Inv` says
that live chains are in range, free of repetition, pairwise disjoint and end in
0xFFFF, that exactly their blocks are marked, and that each is as long as the
file size calls for. `FatSpec` is what the user sees: slots that are empty or
hold a name with its bytes, and a number of blocks. File names are nonempty,
free of NUL and shorter than the field; data are C strings, so free of NUL.

The code keeps the invariant under create, delete and read. A write keeps it
if and only if neither of two conditions holds, both visible before the call:
the file's size is a positive multiple of the block size (the append then
starts at offset 0 of the full last block), or a further block is needed while
block 0 is free (the link then stores 0, the free mark).

The report says that repeated writes append correctly. On an undamaged disk a
read shows the appended bytes if and only if the first condition does not hold
and, should block 0 be free, the data fit in the rest of the file's last block
and the free blocks before that block: a link that stores 0 is still followed
to block 0, but it leaves the old last block free, and a write that gets as far
as that block overwrites it. No write changes what a read shows of other files,
and deleting the written file undoes the damage exactly when the write did not
get that far.

A damaged disk can make two files share blocks, but it cannot make an operation
hang: `FatReach.Coherent` bounds the references to each block, holds of the
zeroed disk, is kept by every operation without any condition on writes, and
makes the release loop of delete end.

## Process tree

`ProcessWalk` models the traversal as steps on leader, parent and child over
the links of the kernel structures, and relates it to recursion over the tree
these links form. A visitor may depend on everything visited before.

## Model

| member | source | states |
|---|---|---|
| `PagingTheorems.OptIsOptimal` | Assignment3/Assignment3-2/page_replacement_simulator.c:80-135 | Belady's theorem: on every reference string and every frame count, OPT faults no more often than any demand-paging schedule with that many frames, offline ones included |
| `PagingTheorems.OptBeatsEveryPolicy` | Assignment3/README.MD:147-148 | OPT never has more faults than FIFO, LRU or Clock |
| `PagingTheorems.OptWithMoreFrames` | Assignment3/Assignment3-2/page_replacement_simulator.c:80-135 | OPT with more frames never faults more often than any of the policies with fewer; in particular OPT has no Belady anomaly |
| `OptPolicy.CoversStep` | Assignment3/Assignment3-2/page_replacement_simulator.c:92-130 | one reference keeps the potential: in every stretch of the future any rival knows at most as many more pages than OPT as it has paid extra faults |
| `OptPolicy.VictimFurthest` | Assignment3/Assignment3-2/page_replacement_simulator.c:106-128 | the victim's next use is at least as far off as every frame's, strictly further than that of the frames before it |
| `PagingTheorems.IsSchedule` | Assignment3/Assignment3-2/page_replacement_simulator.c:80-288 | each policy is a demand-paging schedule: from empty, at most F pages, loading only the referenced page |
| `PagingTheorems.OnlinePoliciesConservative` | Assignment3/Assignment3-2/page_replacement_simulator.c:143-288 | in every window of at most F distinct pages FIFO, LRU and Clock fault at most once per page |
| `PagingTheorems.OnlinePoliciesCompetitive` | Assignment3/Assignment3-2/page_replacement_simulator.c:143-288 | FIFO, LRU and Clock fault at most F times as often as any schedule with F frames, OPT included |
| `DemandPaging.ConservativeVersus` | Assignment3/Assignment3-2/page_replacement_simulator.c:143-288 | the phase argument of Sleator and Tarjan: a conservative run with G frames has, times G - F + 1, at most G times the faults of any schedule with F <= G frames plus G (G - F) |
| `DemandPaging.Competitive` | Assignment3/Assignment3-2/page_replacement_simulator.c:143-288 | with equal frames: any conservative run is F-competitive |
| `FifoPolicy.LoadedPosition` | Assignment3/Assignment3-2/page_replacement_simulator.c:152-165 | everything queued behind a loaded page was referenced after it, until F pages have been |
| `ClockPolicy.LoadedGuard` | Assignment3/Assignment3-2/page_replacement_simulator.c:247-283 | the two-revolution argument: a loaded page stays guarded by its bit or by the pages behind it until F pages have been referenced, initial fill included |
| `ClockPolicy.SearchCost` | Assignment3/Assignment3-2/page_replacement_simulator.c:269-281 | a victim search takes at most F + 1 hand movements, and movements plus bits left set equal bits set before plus two |
| `ClockPolicy.SearchResult` | Assignment3/Assignment3-2/page_replacement_simulator.c:269-281 | the search replaces the first page, in the order of the hand, whose bit is clear, and clears exactly the bits it passes |
| `ClockPolicy.FullRevolution` | Assignment3/Assignment3-2/page_replacement_simulator.c:269-281 | with every bit set the hand comes round, clears them all and replaces the page it started at |
| `ClockPolicy.UsedPageSurvives` | Assignment3/Assignment3-2/page_replacement_simulator.c:251-281 | a page referenced since the hand last moved, by a hit or by its load, is evicted by the next search only if every cached page has its bit set |
| `PagingTheorems.HandStepsAmortised` | Assignment3/Assignment3-2/page_replacement_simulator.c:247-283 | over every prefix the hand moves, together with the bits still set, at most references plus faults |
| `LruPolicy.StackProperty` | Assignment3/Assignment3-2/page_replacement_simulator.c:192-218 | after every prefix the frames hold exactly the F most recently used pages, by recency |
| `LruPolicy.StackSize` | Assignment3/Assignment3-2/page_replacement_simulator.c:192-218 | min(F, distinct pages) frames are occupied, without repetition |
| `LruPolicy.HitIffReusedSoon` | Assignment3/Assignment3-2/page_replacement_simulator.c:195-203 | a reference hits if and only if its page was used before with fewer than F other pages in between |
| `LruPolicy.Inclusion` | Assignment3/Assignment3-2/page_replacement_simulator.c:178-223 | the contents with F frames are the most recent part of the contents with more frames |
| `PagingTheorems.LruWithMoreFrames` | Assignment3/Assignment3-2/page_replacement_simulator.c:178-223 | LRU faults never rise with the number of frames |
| `PagingTheorems.FifoWithMoreFrames` | Assignment3/README.MD:153 | Belady's anomaly of FIFO: a string with 9 faults on 3 frames and 10 on 4 |
| `PagingTheorems.AnomalyBounded` | Assignment3/README.MD:153 | how far the anomaly can go: on every string FIFO, LRU and Clock with G frames fault at most G times as often as any policy with F <= G frames, and (G - F + 1) times their faults are at most G times (its faults plus G - F) |
| `PagingSimulator.FindInFrames` | Assignment3/Assignment3-2/page_replacement_simulator.c:64-70 | the first frame that holds the page, or -1 when none does |
| `PagingSimulator.NextReferenceTo` | Assignment3/Assignment3-2/page_replacement_simulator.c:109-117 | the index of the next use after k, or -1 exactly when there is none |
| `PagingSimulator.SelectVictim` | Assignment3/Assignment3-2/page_replacement_simulator.c:103-128 | the loops with their early exit choose the frame that is first among those used last |
| `PagingSimulator.SimulateOpt` | Assignment3/Assignment3-2/page_replacement_simulator.c:80-135 | the array loop returns the fault count of the OPT policy on the references that count, which for page numbers that are not negative is the whole input |
| `PagingSimulator.SimulateFifo` | Assignment3/Assignment3-2/page_replacement_simulator.c:143-169 | the circular array returns the fault count of the FIFO queue, which for page numbers that are not negative is the whole input |
| `PagingSimulator.LeastRecent` | Assignment3/Assignment3-2/page_replacement_simulator.c:211-214 | the first frame with the smallest timestamp |
| `PagingSimulator.SimulateLru` | Assignment3/Assignment3-2/page_replacement_simulator.c:178-223 | timestamps in an array return the fault count of the recency stack, which for page numbers that are not negative is the whole input |
| `PagingSimulator.ReplaceClock` | Assignment3/Assignment3-2/page_replacement_simulator.c:267-282 | the endless loop ends; frames, bits and hand then hold the policy's next clock |
| `PagingSimulator.SimulateClock` | Assignment3/Assignment3-2/page_replacement_simulator.c:233-288 | frames, bits and hand return the Clock fault count, for page numbers that are not negative that of the whole input, with at most references plus faults hand movements |
| `PagingSimulator.CompareAll` | Assignment3/Assignment3-2/page_replacement_simulator.c:318-322 | all four on one input: OPT is at most every schedule of the references served and of the whole input, and the other three lie between OPT and F times OPT |
| `PagingInput.PlainInput` | Assignment3/Assignment3-2/page_replacement_simulator.c:83-93 | an input without negative page numbers is served as it is |
| `PagingInput.NothingLostIff` | Assignment3/Assignment3-2/page_replacement_simulator.c:64-70 | the whole input is served if and only if every reference to page -1 comes after F distinct pages; page -1 is what an unused frame holds |
| `PagingInput.SentinelIsFree` | Assignment3/Assignment3-2/page_replacement_simulator.c:83-93 | on every input whose first -1 comes earlier, no policy counts a fault for it although every schedule of the input faults there |
| `PagingInput.OptNeverOvercounts` | Assignment3/Assignment3-2/page_replacement_simulator.c:83-134 | on every input, -1 included, the count reported for OPT is at most the faults of any schedule of that whole input |
| `PagingInput.NextReference` | Assignment3/Assignment3-2/page_replacement_simulator.c:64-70 | for each policy the next input is lost exactly when it is -1 and a frame is unused, and otherwise is the next reference served; unused frames never coexist with a cached -1 |
| `Scheduling.Scheduler.AddSegment` | Assignment2/Assignment2-3/cpu_scheduler.c:79-97 | records the interval, merged into a contiguous last segment of the same pid; empty intervals are dropped |
| `SchedModel.AddSegPartition` | Assignment2/Assignment2-3/cpu_scheduler.c:79-97 | a chart that partitions [0, now) with differing neighbours is extended to one that partitions [0, end) |
| `SchedModel.AddSegTotal` | Assignment2/Assignment2-3/cpu_scheduler.c:79-97 | exactly the given pid is charged, with exactly the interval's length |
| `Scheduling.Scheduler.IsAnyReady` | Assignment2/Assignment2-3/cpu_scheduler.c:115-120 | true if and only if some unfinished process has arrived |
| `Scheduling.Scheduler.AreAllDone` | Assignment2/Assignment2-3/cpu_scheduler.c:123-129 | true if and only if every process is done |
| `Scheduling.Scheduler.NextArrivalAfter` | Assignment2/Assignment2-3/cpu_scheduler.c:132-141 | the scan finds the table's next arrival |
| `SchedPick.NextArrivalExists` | Assignment2/Assignment2-3/cpu_scheduler.c:132-141 | with unfinished processes and none ready there is a next arrival, and no unfinished process arrives before it |
| `Scheduling.Scheduler.PickFcfs` | Assignment2/Assignment2-3/cpu_scheduler.c:154-168 | the scan finds FCFS's choice |
| `Scheduling.Scheduler.PickSjf` | Assignment2/Assignment2-3/cpu_scheduler.c:174-185 | the scan finds SJF's choice |
| `Scheduling.Scheduler.PickSrtf` | Assignment2/Assignment2-3/cpu_scheduler.c:191-202 | the scan finds SRTF's choice |
| `SchedPick.FcfsChoice` | Assignment2/Assignment2-3/cpu_scheduler.c:154-168 | the choice has arrived, is not done, and comes first in (arrival, pid) among all such |
| `SchedPick.SjfChoice` | Assignment2/Assignment2-3/cpu_scheduler.c:174-185 | the choice has arrived, is not done, and comes first in (burst, arrival, pid) among all such |
| `SchedPick.SrtfChoice` | Assignment2/Assignment2-3/cpu_scheduler.c:191-202 | the choice has arrived, is not done, and comes first in (remaining time, arrival, pid) among all such |
| `SchedNonPreemptive.RunsShortestJob` | Assignment2/Assignment2-3/cpu_scheduler.c:342-384 | each SJF iteration takes exactly one process to its end, and it comes first in (burst, arrival, pid) among those there |
| `SchedSrtf.RunsShortest` | Assignment2/Assignment2-3/cpu_scheduler.c:397-451 | each SRTF iteration runs exactly one process, and it comes first in (remaining time, arrival, pid) among those there |
| `Scheduling.Scheduler.WaitForWork` | Assignment2/Assignment2-3/cpu_scheduler.c:279-288 | idles until the next arrival exactly when nobody is ready |
| `Scheduling.Scheduler.ChargeSwitch` | Assignment2/Assignment2-3/cpu_scheduler.c:295-301 | 0.1 ms is charged exactly when the CPU passes from one process to a different one |
| `Scheduling.Scheduler.RunToCompletion` | Assignment2/Assignment2-3/cpu_scheduler.c:293-324 | switch, first start, run to the end, completion time |
| `Scheduling.Scheduler.SimulateFcfs` | Assignment2/Assignment2-3/cpu_scheduler.c:271-332 | the loop ends with all done, every tick accounted for and first starts and completions as on the chart, in the state the FCFS run function gives |
| `Scheduling.Scheduler.SimulateSjf` | Assignment2/Assignment2-3/cpu_scheduler.c:342-384 | the same for SJF |
| `SchedNonPreemptive.RunAccounted` | Assignment2/Assignment2-3/cpu_scheduler.c:271-384 | every FCFS and SJF run ends; its chart partitions the time, charges each process what it no longer needs, and now is work plus idle time plus switches |
| `SchedTimeline.FinalAccounts` | Assignment2/Assignment2-3/cpu_scheduler.c:54-97 | on a finished chart each process has run for exactly its burst and the makespan is bursts plus idle time plus 0.1 ms a switch |
| `SchedFcfs.FcfsRecurrence` | Assignment2/Assignment2-3/cpu_scheduler.c:271-325 | on the sorted table start[i] = max(finish[i-1], arrival[i]) + (0.1 if i > 0) and finish[i] = start[i] + burst[i] |
| `SchedTimeline.RunFollowsTimeline` | Assignment2/Assignment2-3/cpu_scheduler.c:271-384 | however a rule chooses, idle periods and end are those of serving the table in order |
| `SchedTimeline.SameIdleAndMakespan` | Assignment2/Assignment2-3/cpu_scheduler.c:271-384 | FCFS and SJF have the same idle intervals and the same makespan on every input |
| `SchedTimeline.MakespanIsFinishMax` | Assignment2/Assignment2-3/cpu_scheduler.c:240-254 | the largest completion time in the statistics is the end of the chart |
| `SchedTimeline.FullUtilisation` | Assignment2/Assignment2-3/cpu_scheduler.c:238-259 | utilisation lies above 0 and up to 100 percent, and is 100 exactly when the CPU neither idles nor switches |
| `SchedTimeline.SameUtilisation` | Assignment2/Assignment2-3/cpu_scheduler.c:240-259 | FCFS and SJF have the same largest completion time, the same sum of bursts and so the same CPU utilisation on every input |
| `SchedSjf.ShortestFirst` | Assignment2/Assignment2-3/cpu_scheduler.c:174-185 | the exchange: moving a shortest process to the front never adds waiting time |
| `SchedSjf.RunWait` | Assignment2/Assignment2-3/cpu_scheduler.c:240-253 | the statistics' waiting sum of a run is the waiting time of the order it served |
| `SchedSjf.SjfOptimal` | Assignment2/Assignment2-3/cpu_scheduler.c:342-384 | with one common arrival time SJF's total waiting time is at most that of every order with the same switch costs |
| `SchedSjf.SjfBeatsFcfs` | Assignment2/Assignment2-3/cpu_scheduler.c:271-384 | in particular at most that of FCFS |
| `Scheduling.Scheduler.ResumeProcess` | Assignment2/Assignment2-3/cpu_scheduler.c:410-420 | switch and first start only when the owner of the CPU changes |
| `Scheduling.Scheduler.RunUntilEvent` | Assignment2/Assignment2-3/cpu_scheduler.c:422-451 | runs until completion or the next arrival, whichever is first |
| `SchedSrtf.SliceBounds` | Assignment2/Assignment2-3/cpu_scheduler.c:427-438 | a slice is positive, never exceeds the remaining time or passes an arrival, and stops early only at one |
| `Scheduling.Scheduler.SimulateSrtf` | Assignment2/Assignment2-3/cpu_scheduler.c:392-456 | the loop ends with all done and accounted for, times as on the chart, in at most 2N - 1 iterations with at most N - 1 switches |
| `SchedSrtf.SrtfIterations` | Assignment2/Assignment2-3/cpu_scheduler.c:397-452 | at most 2N - 1 iterations |
| `SchedSrtf.SrtfSwitches` | Assignment2/Assignment2-3/cpu_scheduler.c:410-415 | at most N - 1 context switches |
| `SchedSrtf.PreemptedByNewcomer` | Assignment2/Assignment2-3/cpu_scheduler.c:407-450 | a running process loses the CPU only to one that arrived after it was chosen |
| `SchedSrtf.RunAccounted` | Assignment2/Assignment2-3/cpu_scheduler.c:392-456 | every SRTF run ends with the accounts balanced |
| `Scheduling.Scheduler.EnqueueArrivals` | Assignment2/Assignment2-3/cpu_scheduler.c:481-489 | pushes, in table order, the unfinished processes that arrive in (from, to] |
| `Scheduling.Scheduler.EnqueuePresent` | Assignment2/Assignment2-3/cpu_scheduler.c:531-532 | pushes, in table order, the unfinished processes that have arrived |
| `Scheduling.Scheduler.BeginRr` | Assignment2/Assignment2-3/cpu_scheduler.c:496-516 | initial idle time and first pushes |
| `Scheduling.Scheduler.Refill` | Assignment2/Assignment2-3/cpu_scheduler.c:520-533 | an empty queue idles to the next arrival and is refilled |
| `Scheduling.Scheduler.TakeTurn` | Assignment2/Assignment2-3/cpu_scheduler.c:536-585 | one turn: switch, first start, quantum, arrivals, completion or requeue |
| `Scheduling.Scheduler.SimulateRr` | Assignment2/Assignment2-3/cpu_scheduler.c:494-590 | the loop ends in the state of the run function, accounts balanced, times as on the chart, pushes at most the sum of ceil(burst/tq); without collisions all is done with exactly that many pushes |
| `SchedRoundRobin.NewcomersExact` | Assignment2/Assignment2-3/cpu_scheduler.c:481-489 | the arrivals pushed are exactly the unfinished processes that arrive in (after, until], in strictly increasing table order |
| `SchedRoundRobin.PresentExact` | Assignment2/Assignment2-3/cpu_scheduler.c:529-533 | a refill pushes exactly the unfinished processes that have arrived, in strictly increasing table order |
| `SchedRoundRobin.TurnQueue` | Assignment2/Assignment2-3/cpu_scheduler.c:562-584 | after a turn the queue is what was behind the front, then the newcomers in table order, then the process itself if it is not done |
| `SchedRoundRobin.TurnSound` | Assignment2/Assignment2-3/cpu_scheduler.c:539-585 | a turn keeps the queue free of duplicates, finished processes and processes not yet arrived |
| `SchedRoundRobin.TurnComplete` | Assignment2/Assignment2-3/cpu_scheduler.c:545-569 | a turn leaves every arrived unfinished process queued if and only if nobody arrives at the very end of its switch |
| `SchedRoundRobin.RefillComplete` | Assignment2/Assignment2-3/cpu_scheduler.c:520-533 | a refill queues everybody, processes missed earlier included |
| `SchedRrRuns.MissedIffCollision` | Assignment2/Assignment2-3/cpu_scheduler.c:494-590 | over a whole run every arrived unfinished process is queued at each iteration if and only if no switch ends at an arrival |
| `SchedRrRuns.RrFinishesIff` | Assignment2/Assignment2-3/cpu_scheduler.c:518-586 | every process finishes if and only if each missed arrival is followed by an idle refill |
| `SchedRrRuns.RrFinishes` | Assignment2/Assignment2-3/cpu_scheduler.c:518-586 | a collision-free run finishes everything with exactly the sum of ceil(burst/tq) pushes, all popped |
| `SchedRrRuns.PushesBounded` | Assignment2/Assignment2-3/cpu_scheduler.c:466-476 | on every run, collisions or not, the pushes are at most the sum of ceil(burst/tq): the size the queue array needs |
| `SchedRrRuns.TurnsRoundUp` | Assignment2/Assignment2-3/cpu_scheduler.c:565-582 | the number of turns is the quotient of time and quantum rounded up |
| `SchedRrTimes.RunBalanced` | Assignment2/Assignment2-3/cpu_scheduler.c:494-590 | every RR run ends with the accounts balanced |
| `SchedRrTimes.QueueWait` | Assignment2/Assignment2-3/cpu_scheduler.c:518-586 | a queued process is the next to run after at most one full turn for each one ahead of it, and fewer than N are |
| `SchedRrTimes.RrWait` | Assignment2/Assignment2-3/cpu_scheduler.c:518-586 | from any iteration at which it is queued a process waits at most (N - 1)(tq + 0.1) + 0.1 ms for its next dispatch |
| `SchedRrTimes.RrResponse` | Assignment2/Assignment2-3/cpu_scheduler.c:557-560 | on a collision-free run every response time is at most (N - 1)(tq + 0.1) ms |
| `SchedRrTimes.CollisionIsTenth` | Assignment2/Assignment2-3/cpu_scheduler.c:545-551 | on every run and at every iteration: if the next turn collides, the switch it starts with is the tenth, twentieth, ... since the CPU last idled |
| `SchedRrTimes.ElevenTurnsAreSafe` | Assignment2/Assignment2-3/cpu_scheduler.c:494-590 | a table that needs at most eleven turns in all has no collision whatever the arrivals |
| `SchedRrTimes.NeverServed` | Assignment2/Assignment2-3/cpu_scheduler.c:545-569 | with twelve turns there is a table whose last process is never given the CPU |
| `SchedStamps.NonPreemptiveStamps` | Assignment2/Assignment2-3/cpu_scheduler.c:302-320 | on every FCFS and SJF run each process's first start is the start of its first chart segment and its completion the end of its last |
| `SchedStamps.SrtfStamps` | Assignment2/Assignment2-3/cpu_scheduler.c:410-448 | the same on every SRTF run, however often a process is preempted |
| `SchedStamps.RrStamps` | Assignment2/Assignment2-3/cpu_scheduler.c:545-582 | the same on every RR run, collisions or not: started if and only if on the chart, first start and completion read off it |
| `SchedStamps.ResponseIsWait` | Assignment2/Assignment2-3/cpu_scheduler.c:240-253 | under FCFS and SJF the response times add up to exactly the waiting times |
| `SchedStamps.SrtfResponse` | Assignment2/Assignment2-3/cpu_scheduler.c:240-253 | under SRTF they add up to no more than the waiting times |
| `SchedStamps.RrTotalResponse` | Assignment2/Assignment2-3/cpu_scheduler.c:240-253 | on a collision-free RR run they add up to at most N (N - 1)(tq + 0.1) ms and to no more than the waiting times |
| `Scheduling.Scheduler.Statistics` | Assignment2/Assignment2-3/cpu_scheduler.c:240-254 | the sums behind the averages; turnaround is waiting plus burst |
| `FatDisk.Disk.FindFreeBlock` | Assignment4/Assignment4-2/fat.c:50-57 | the lowest free block, or -1 |
| `FatDisk.Disk.Lookup` | Assignment4/Assignment4-2/fat.c:131-132 | the first entry with the name, or -1 |
| `FatDisk.Disk.CreateFile` | Assignment4/Assignment4-2/fat.c:93-122 | the nested scans do what Create does on values |
| `FatDisk.Disk.LastBlock` | Assignment4/Assignment4-2/fat.c:143-150 | the walk to the block the append starts in |
| `FatDisk.Disk.AppendBytes` | Assignment4/Assignment4-2/fat.c:152-191 | the append loop on the arrays writes what Append writes on values, partial writes included |
| `FatDisk.Disk.WriteFile` | Assignment4/Assignment4-2/fat.c:129-201 | the whole of write_file, for every reachable disk, damaged or not |
| `FatDisk.Disk.ReadFile` | Assignment4/Assignment4-2/fat.c:207-251 | the output of the read loop |
| `FatDisk.Disk.DeleteFile` | Assignment4/Assignment4-2/fat.c:256-278 | the whole of delete_file on every reachable disk, damaged or not: the release loop ends, and the entry is cleared |
| `FatDisk.Disk.constructor` | Assignment4/Assignment4-2/fat.c:76-82 | the zeroed state of a first start, which has the property every operation keeps |
| `FatChains.Conservation` | Assignment4/Assignment4-2/fat.c:50-57 | no leaks: the blocks in use are exactly those that the file sizes of the directory call for |
| `FatChains.ChainUnique` | Assignment4/Assignment4-2/fat.c:147-150 | a chain is determined by its first block |
| `FatAppend.AppendGrows` | Assignment4/Assignment4-2/fat.c:152-191 | an append keeps the chain, extends it by formerly free blocks and no more than needed, leaves every other block alone, and writes exactly min(length, room in the last block + 32 per free block) bytes behind the given position |
| `FatFrame.SwapKeepsInv` | Assignment4/Assignment4-2/fat.c:93-278 | replacing one file's chain keeps the invariant and the content of every other file |
| `FatOps.CreateRefines` | Assignment4/Assignment4-2/fat.c:93-122 | create succeeds exactly when the name is new and an entry and a block are free; the invariant and all contents stay |
| `FatOps.WriteRefines` | Assignment4/Assignment4-2/fat.c:129-201 | a write that neither overlays nor links to block 0 takes the state to one that shows the appended prefix that fits, every other slot unchanged; by WriteKeepsInvIff no other write leaves such a state |
| `FatOps.WriteKeepsInvIff` | Assignment4/Assignment4-2/fat.c:147-194 | a write keeps the invariant if and only if it is not made at a positive multiple of the block size and does not need a block while block 0 is free |
| `FatReadBack.WriteAppendsIff` | Assignment4/Assignment4-2/fat.c:143-242 | a read after a write shows the old content followed by the bytes written if and only if the write does not start at a positive multiple of the block size and, should block 0 be free, fits in the rest of the last block and the free blocks before it; then as many bytes are written as there is room for |
| `FatReadBack.AppendsIn32` | Assignment4/Assignment4-2/fat.c:8-25 | with block 0 in use, in the numbers of the source: min(length, 32 - size mod 32 + 32 per free block) bytes are appended and read back unless the size is a positive multiple of 32; chains end in 0xFFFF |
| `FatReadBack.TakenBackLosesData` | Assignment4/Assignment4-2/fat.c:163-177 | a longer write while block 0 is free links block 0, takes back the file's own last block and overwrites it: the read comes out shorter than the recorded size |
| `FatReadBack.DeleteRepairs` | Assignment4/Assignment4-2/fat.c:129-278 | deleting a file after a write that did not take its own last block back, overlays and links to block 0 included, leaves the other files and the free space as if the write had not been |
| `FatReadBack.DeleteRepairsIff` | Assignment4/Assignment4-2/fat.c:129-278 | deleting the file just written gives back an undamaged disk if and only if the write did not take the file's own last block back; otherwise block 0 stays in use for good |
| `FatReadBack.WriteKeepsOthers` | Assignment4/Assignment4-2/fat.c:129-201 | no write, damaging or not, changes what a read shows of any other name |
| `FatOps.LinkToZeroLeaks` | Assignment4/Assignment4-2/fat.c:165-177 | linking to block 0 always leaks it: afterwards it is marked as in use but lies on no used entry's chain, so the invariant is lost |
| `FatOps.OverlayPath` | Assignment4/Assignment4-2/fat.c:147-152 | an append at a positive multiple of the block size always leaves a read fewer blocks to go through than the recorded size calls for, also when it links to block 0 |
| `FatOps.ReleasePath` | Assignment4/Assignment4-2/fat.c:263-268 | from any block the release loop frees exactly the blocks that a read would go through, block 0 behind a free mark included |
| `FatOps.ReleaseChain` | Assignment4/Assignment4-2/fat.c:263-268 | on a proper chain the release loop ends and frees exactly its blocks |
| `FatOps.DeleteRefines` | Assignment4/Assignment4-2/fat.c:256-278 | delete ends, removes the file and nothing else, and keeps the invariant |
| `FatOps.ReadRefines` | Assignment4/Assignment4-2/fat.c:207-251 | read prints exactly the content |
| `FatRuns.ExecShaped` | Assignment4/Assignment4-2/fat.c:93-278 | every operation keeps links in range, on damaged disks too |
| `FatReach.ReleaseEnds` | Assignment4/Assignment4-2/fat.c:263-268 | the release loop ends wherever references to blocks are bounded, chain or not, and keeps that bound |
| `FatReach.WriteCoherent` | Assignment4/Assignment4-2/fat.c:129-201 | every write, overlaying or linking to block 0 or not, keeps the bound: at most one reference to a block in use and none to a free one, but for one surplus while block 0 is leaked |
| `FatReach.DeleteCoherent` | Assignment4/Assignment4-2/fat.c:256-278 | delete returns wherever the bound holds, and keeps it |
| `FatRuns.ExecCoherent` | Assignment4/Assignment4-2/fat.c:93-278 | each of the four operations returns wherever the bound holds, and keeps it |
| `FatRuns.SessionNeverStuck` | Assignment4/Assignment4-2/fat.c:76-86 | from the zeroed state every session of commands is answered to its end, the damaging writes included |
| `FatRuns.NamesAllowed` | Assignment4/Assignment4-2/fat.c:9-16 | every nonempty name of at most 99 characters without NUL is safe to create, read and delete |
| `FatRuns.RunRefines` | Assignment4/Assignment4-2/fat.c:93-278 | every safe session gets exactly the replies of a machine of named byte strings with limited space, and never gets stuck |
| `FatRuns.SessionRefines` | Assignment4/Assignment4-2/fat.c:76-86 | the same from the zeroed state |
| `FatReadBack.OverlayLosesData` | Assignment4/Assignment4-2/fat.c:147-152 | after every overlay a read shows fewer bytes than the recorded size |
| `FatRuns.OverlayRun` | Assignment4/Assignment4-2/fat.c:147-152 | such a state is reached by create, a write of 32 bytes and a write of one more |
| `FatRuns.SharedBlockRun` | Assignment4/Assignment4-2/fat.c:165-177 | create a, create b, delete a and a 33-byte write to b, which is read back in full; then create c starts at b's first block, and a byte written to c shows in b |
| `ProcessWalk.WalkIsPreorder` | Assignment2/Assignment2-1/fork.c:2677-2707 | on every finite process tree the stackless walk ends, having visited exactly what the recursive preorder visits: 0 skips a subtree, a negative result stops |
| `ProcessWalk.WalkProcessTree` | Assignment2/Assignment2-1/fork.c:2677-2707 | the loop over leader, parent and child returns that list of visits, and only its last visit can have been answered with a negative number |
| `ProcessWalk.StopsAtNegative` | Assignment2/Assignment2-1/fork.c:2685-2692 | every visit but the last is answered with 0 or more, and the walk is stopped if and only if the last answer is negative |
| `ProcessWalk.VisitedIffEntered` | Assignment2/Assignment2-1/fork.c:2685-2696 | as far as the walk gets, a descendant is visited if and only if each of its ancestors below the top was visited and answered with a positive number; unless stopped it gets to the end, in preorder |
| `ProcessWalk.VisitsAllThreads` | Assignment2/Assignment2-1/fork.c:2685-2696 | a visitor that always goes on sees every descendant, parents before children before later siblings |

## Left out

- The syscall-table hooking modules and `file_varea.c`, `Process_tracer.c`, `proc_info.c`: foreign kernel calls around little state of their own.
- The rest of `fork.c`, `init_task.c` and `sched.h`: upstream kernel code that rests on other subsystems.
- The process and thread summation programs: operating-system plumbing around a sum.
- File reading, printed text, command parsing, saving and loading the raw state, allocation and freeing.
- `print_gantt`: display only, and it drops cells by design.
- Averages: the sums are modelled, the divisions and the rounding of printed numbers are not.
- Floating point in the scheduler: times are exact multiples of 0.1 ms.
- The fixed size of the round-robin queue array: the queue is an unbounded sequence, and the bound on pushes says how large the array must be.
- The locking of `walk_process_tree` and changes to the tree during a walk.
- PagingSimulator.SimulateOpt: counts only the references that reach the replacement logic, because a reference to page -1 matches an unused frame; the same holds for the other three simulators.
- Names that are empty or do not fit the directory field: they match unused entries or overrun the buffer.
