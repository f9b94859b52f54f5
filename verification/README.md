# Verified models of an operating systems course repository

The repository holds student projects for an operating systems course: two paging simulators, two
programs of communicating threads, a shell, and modified kernel files. This project models the hard
parts of them in Dafny and proves what they keep. All sizes (memory, pages, processes, slots,
cars, chairs, trackers, machine words) are parameters. `dafny verify dfyconfig.toml` checks everything.

| files | part of the repository |
|---|---|
| `PageBits`, `Paging*` | the paging simulator with a backing store, Project4/Part2 |
| `SimplePaging*` | the paging simulator without one, Project4/Part1 |
| `Intersection*` | cars at an intersection, Project3/Drivers |
| `Department*` | pirates and ninjas in a costume department, Project3/PiratesVNinjas |
| `Jobs` | background jobs of the shell, Project1/v2 |
| `Credentials`, `SysInfo` | set*id calls and sysinfo, Project0/submission |
| `Search` | substring search, Project2/module |
| `Grid` | counting and indexing lemmas that the others share |

Code that updates things in place is a class (`PagingMachine.Machine`, `SimplePagingMachine.Machine`,
`IntersectionCode.Junction`, `IntersectionCode.CarQueues`, `DepartmentCode.CostumeDepartment`,
`Jobs.JobTable`, `Credentials.Task`). Its methods are proved equal to functions on immutable states,
and the results about runs are lemmas about those functions. Threads are a step function over a
program counter for each car.

## What is proved

*Paging.* Page tables are bytes of the memory that they map, and a round-robin evictor moves pages and
tables to a backing store. Over every run of map, store and load by any processes, what a process has
at an address is what a one-address reference memory says (`PagingRefinesPrivateMemory`, `Recall`).
The proviso is that no eviction was dropped for want of a slot and, on page 0, that page 0 of that
process was not evicted. `EnoughStore` removes the proviso for every address past page 0 by a count
that can be made before the run. Without it, `RecallOrFault` shows that a load yields the stored value
or faults, until the process stores there or maps the page again. The simulator without a backing store
needs no proviso: a reference machine that only counts frames predicts every answer (`RefinesFlatMemory`).

*Intersection.* An invariant kept by every interleaving gives exact claims, no lost wake-up and no
deadlock; a measure that falls with every step bounds the steps between arrivals, so that every
schedule without arrivals ends, with every car away (`EveryScheduleEnds`, `AllGetAway`).

Four expectations turn out false of the code. Each has a failing input and an exact condition:

- An evicted page 0 is lost, because the search for its number starts at entry 1 of the table
  (Project4/Part2/pageTable.c:45). It stays filed as -2 and its slot is never freed. A load then faults,
  on every machine with at least as many virtual pages as frames (`PageZeroIsForgotten`). Once the page is
  mapped again a load yields another page's byte (`PageZeroIsMisread`), since a new page shows whatever its
  frame held before (`NewPageShowsVictim`). `TwoFramesForget` and `TwoFramesMisread` are runs of commands
  that do so, next to what the reference memory says; `ProgramForgets` has the program's own sizes.
  `CommandKeepsPageZeroIff` says exactly when a command spares a page 0, `PageZeroKeptIff` when free_frame
  does, and `EvictionKeepsIff` when the eviction of a page does.
- Not every lock request respects the order of locks. A car that has crossed asks for the intersection
  lock while it holds its quadrants' locks (Project3/Drivers/carThread.c:45). `LockOrder` says exactly
  when the order is kept and `OrderIsBroken` is a run that breaks it. It does not lead to a deadlock
  (`NoDeadlock`), since nobody who holds the intersection lock waits for those locks.
- sysinfo's sizes do not always mean the same number of bytes after scaling. `BytesKeptIff` gives the
  condition, a unit that is a power of two, and `NotAPowerOfTwo` an input that fails.
- Checking the swap conditions on leaving does not prevent every deadlock (Project3/PiratesVNinjas/human.c:251-254
  says that it does). An empty department never changes hands by itself: in `RivalsWaitForEver` a visitor of
  the owning team comes and goes while no rival waits, and rivals who come later wait for ever.
  `ComesInIff` says exactly when a team can still get in.

Where code and documentation disagree the models follow the code. The comments in
Project4/Part2/pageTable.h:63 and 73 promise NULL from find_page and check_backing_store, but the first
creates a table and the second returns 0. Project3/problem2_explanation.txt:34 and 38 say that a car
takes its quadrant locks after dropping the intersection lock, and drops them before taking it again;
the code takes them while it holds that lock and keeps them until it has it back.

## Model

| member | source | states |
|---|---|---|
| PageBits.RawOfOverlay | Project4/Part2/pageTable.h:18-23 | every byte survives being read as a table entry and back |
| PageBits.OverlayOfRaw | Project4/Part2/pageTable.h:18-23 | every table entry survives being read as a byte and back |
| Grid.Divides | Project4/Part2/pageTable.c:236-237 | page number and offset, defined by counting, are the quotient and remainder that the program computes |
| PagingState.FindSlot | Project4/Part2/pageTable.c:124-125 | the first slot that holds the page, and no earlier slot does |
| PagingState.FreeSlot | Project4/Part2/pageTable.c:94-95 | the first unused slot, all earlier ones being used |
| PagingCapacity.SlotsInUse | Project4/Part2/pageTable.c:87-112 | slots in use never exceed MAX_PROCESSES times the virtual pages plus the slots of evicted page 0s |
| PagingCapacity.RoomToEvict | Project4/Part2/pageTable.c:93-108 | unless dead slots have used up that room, anything in memory can be evicted to a free slot |
| PagingEvict.EvictInv | Project4/Part2/pageTable.c:87-112 | evicting a page, or a table that maps nothing, keeps frames distinct and each key in at most one place |
| PagingEvict.EvictMoves | Project4/Part2/pageTable.c:87-112 | every page of every process looks the same afterwards, write bit included, or is lost because no slot was free or it was a page 0; page 0s and dead slots together do not grow |
| PagingEvict.EvictStored | Project4/Part2/pageTable.c:94-107 | an eviction leaves what else is in the store unchanged and findable |
| PagingEvict.EvictionKeepsIff | Project4/Part2/pageTable.c:40-55 | an evicted page stays visible if and only if it is not page 0 and a slot is free |
| PagingEvict.MovesSparesStored | Project4/Part2/pageTable.c:57-85 | evictions never change how a page that is already out of memory looks |
| PagingFrames.EvictPagesSpec | Project4/Part2/pageTable.c:70-77 | unloading a table evicts everything that it maps, keeps the invariant and leaves every table in memory |
| PagingFrames.EvictWholeSpec | Project4/Part2/pageTable.c:70-79 | the victim's frame is free afterwards and only the victim's table can have left memory |
| PagingFrames.FreeFrame | Project4/Part2/pageTable.c:57-85 | terminates and never evicts the caller's table; returns robin's frame, which is then free, or the one after it, wrapping around, if the caller's table is in robin's; leaves robin just past the frame returned |
| PagingRobin.EveryFrameInTurn | Project4/Part2/pageTable.c:59-84 | round robin: in as many calls for a process as there are frames, every frame but that of its table is returned |
| PagingFrames.FindFreeFrame | Project4/Part2/pageTable.c:31-38 | the lowest free frame and nothing changed, or an eviction exactly when memory is full; the frame returned is free and the caller's resident table is still resident |
| PagingLosses.FreeFrameTakes | Project4/Part2/pageTable.c:57-85 | exactly the victim leaves memory, with all that it maps if it is a table; the victim owns robin's frame, or the next one if robin is at the caller's table |
| PagingLosses.PageZeroKeptIff | Project4/Part2/pageTable.c:40-85 | page 0 of a process looks the same after free_frame if and only if it is not in memory, or neither it nor its table is the victim |
| PagingLosses.FreeFrameShows | Project4/Part2/pageTable.c:57-112 | the frame returned still has the contents of the page evicted from it |
| PagingLosses.NewPageShowsVictim | Project4/Part2/pageTable.c:207-219 | a page mapped afresh when memory is full shows what the victim held, unless that was a table |
| PagingLosses.CommandKeepsPageZeroIff | Project4/Part2/pageTable.c:194-277 | after a command that is not itself on that page, page 0 of a process looks the same if and only if neither of its at most two calls of free_frame has that page or its table as victim |
| PagingForgets.PageZeroIsForgotten | Project4/Part2/pageTable.c:31-112 | with robin at 0 and at least as many virtual pages as frames, map page 0, store, and map as many pages as there are frames: page 0 is gone and the load faults |
| PagingForgets.PageZeroIsMisread | Project4/Part2/pageTable.c:194-227 | store to page 1 and map page 0 again after that, and a load from page 0 yields what was stored to page 1 |
| PagingForgets.TwoFramesForget | Project4/Part2/pageTable.c:45 | with two frames, as a run of commands: the load faults, the reference memory has the value, and with room in the store nothing was dropped |
| PagingForgets.TwoFramesMisread | Project4/Part2/pageTable.c:207-219 | with two frames, as a run of commands: the load yields page 1's byte where the reference memory has page 0's |
| PagingForgets.ProgramForgets | Project4/Part2/pageTable.h:10-16 | page 0 is lost and then misread on the program's own machine |
| PagingForgets.SmallMachineForgets | Project4/Part2/pageTable.c:45 | a machine of two frames on which both runs do what is said, and drop nothing |
| PagingOps.PutViews | Project4/Part2/pageTable.c:130-150 | a frame newly given to a page shows exactly the data put there, and no other page of any process looks different |
| PagingOps.RestoreKeeps | Project4/Part2/pageTable.c:128-158 | loading from the store moves a page into memory with contents and write bit unchanged, for every page of every process |
| PagingOps.CheckStore | Project4/Part2/pageTable.c:123-163 | succeeds exactly when the page or table is in the store, which is then in memory; otherwise nothing changes; the caller's table does not move |
| PagingOps.InitTable | Project4/Part2/pageTable.c:165-192 | afterwards the table is in memory, maps nothing, and the process's stored pages look as before |
| PagingOps.FindPage | Project4/Part2/pageTable.c:114-121 | afterwards the table is in memory, with the same pages in memory and every page of the process looking the same |
| PagingCommands.PokeSparesTables | Project4/Part2/pageTable.c:252 | writing data changes no page table of any process |
| PagingCommands.PokeKeeps | Project4/Part2/pageTable.c:252 | exactly one byte of one page of one process changes |
| PagingCommands.SetWriteKeeps | Project4/Part2/pageTable.c:200-204 | changing permissions keeps the data of the page and every other page |
| PagingCommands.MapFresh | Project4/Part2/pageTable.c:209-218 | a page that was nowhere shows exactly what its frame held before it |
| PagingCommands.MapPage | Project4/Part2/pageTable.c:194-227 | the page is in memory with the permissions asked for and its old contents if it had any; nothing else changes; false exactly when it was in memory already |
| PagingCommands.Fetch | Project4/Part2/pageTable.c:230-243 | succeeds exactly when the process has a table and the page exists somewhere, and then the page is in memory unchanged |
| PagingCommands.Store | Project4/Part2/pageTable.c:229-255 | succeeds exactly when the page exists and is writable; then one byte of it changes and nothing else; otherwise nothing visible changes |
| PagingCommands.Load | Project4/Part2/pageTable.c:257-277 | yields the byte of the page wherever the page is kept, or fails exactly when there is no page, and changes nothing visible |
| PagingRuns.InitialInv | Project4/Part2/mem.c:18-22 | the machine starts within the invariant, with nothing in memory or store |
| PagingRuns.ReachableStates | Project4/Part2/mem.c:25-80 | in every state of every run frames are in range and pairwise distinct, each table and each page from 1 on is in at most one place, and nothing was dropped unless dead slots used up the room |
| PagingRuns.Step | Project4/Part2/mem.c:58-79 | every command keeps the invariant and drops nothing before the store is overfull; map answers true exactly when the page was not in memory |
| PagingRuns.StepRefines | Project4/Part2/pageTable.c:194-277 | one command of any process does to an address of any process what the reference memory says |
| PagingRuns.RunRefines | Project4/Part2/pageTable.c:194-277 | the same over whole runs, from any state within the invariant |
| PagingRuns.PagingRefinesPrivateMemory | Project4/Part2/pageTable.c:194-277 | after any run from the start a load faults exactly when the address is unmapped, else yields the value last stored, and a store succeeds exactly when the address is writable |
| PagingRuns.RunDooms | Project4/Part2/pageTable.c:40-55 | over any run, slots lost for good plus resident page 0s grow by at most the number of map commands on page 0 |
| PagingRuns.NothingDropped | Project4/Part2/pageTable.c:93-108 | with slots for all tables and pages and one more for each map of a page 0, no eviction is dropped in any run |
| PagingRuns.EnoughStore | Project4/Part2/pageTable.c:194-277 | under that count alone, every answer for every address past page 0 is the reference memory's |
| PagingRuns.Recall | Project4/Part2/pageTable.c:229-277 | a stored value is what every later load yields until the process stores there again, whatever anybody does |
| PagingRuns.RecallOrFault | Project4/Part2/pageTable.c:229-277 | on any page and with any store, later loads yield the stored value or fault until the process stores there or maps the page again |
| PagingMachine.Machine.constructor | Project4/Part2/mem.c:18-22 | the fields represent an initial state |
| PagingMachine.Machine.FrameAllocated | Project4/Part2/pageTable.c:9-29 | null exactly when no table or page has the frame, else a pointer to the one entry that does |
| PagingMachine.Machine.GetPageNum | Project4/Part2/pageTable.c:40-55 | -1 for a table, the page number for pages from 1 on, and -2 for page 0 |
| PagingMachine.Machine.FreeSpecificFrame | Project4/Part2/pageTable.c:87-112 | the loops on arrays do what Evict says |
| PagingMachine.Machine.UnloadTable | Project4/Part2/pageTable.c:73-76 | the loop over a table in memory evicts all that it maps |
| PagingMachine.Machine.FreeFrame | Project4/Part2/pageTable.c:57-85 | the recursion terminates and does what the function FreeFrame says |
| PagingMachine.Machine.FindFreeFrame | Project4/Part2/pageTable.c:31-38 | returns the first free frame, or evicts |
| PagingMachine.Machine.CheckBackingStore | Project4/Part2/pageTable.c:123-163 | the mutual recursion with find_page terminates and does what CheckStore says |
| PagingMachine.Machine.LoadSlot | Project4/Part2/pageTable.c:130-157 | copying in and entering in the table are right although the table is looked up again between the two |
| PagingMachine.Machine.InitTable | Project4/Part2/pageTable.c:165-192 | clearing the frame after pointing the table at it gives an empty table |
| PagingMachine.Machine.FindPage | Project4/Part2/pageTable.c:114-121 | returns the address of entry n of the table, which is in memory |
| PagingMachine.Machine.MapPage | Project4/Part2/pageTable.c:194-227 | the pointer obtained first is still the page's entry after the evictions in between |
| PagingMachine.Machine.Store | Project4/Part2/pageTable.c:229-255 | likewise, for writing through it |
| PagingMachine.Machine.Load | Project4/Part2/pageTable.c:257-277 | likewise, for reading through it |
| PagingMachine.Machine.Execute | Project4/Part2/mem.c:58-79 | one command on the arrays is one step of the run that the theorems are about |
| SimplePaging.RawOfOverlay | Project4/Part1/pageTable.h:17-21 | every byte survives being read as a table entry and back |
| SimplePaging.AssignInv | Project4/Part1/pageTable.c:99-102 | giving out a free frame keeps frames distinct and adds exactly that frame to those in use |
| SimplePaging.MapPage | Project4/Part1/pageTable.c:70-105 | a mapped page gets the permission asked for and the answer false; the answer true means that the page is now mapped |
| SimplePaging.Store | Project4/Part1/pageTable.c:107-133 | succeeds exactly when the page is mapped for writing, and otherwise changes nothing |
| SimplePaging.PokeLive | Project4/Part1/pageTable.c:130 | writing data changes no page table |
| SimplePaging.PokeInv | Project4/Part1/pageTable.c:130 | writing data keeps free frames zero and the frames in use |
| SimplePagingRuns.MapSees | Project4/Part1/pageTable.c:70-105 | a new page reads as zero, a mapped one keeps its values, and every other address of every process is untouched |
| SimplePagingRuns.StoreSees | Project4/Part1/pageTable.c:107-133 | a store changes exactly one address of one process, and only if it is writable |
| SimplePagingRuns.MapKeys | Project4/Part1/pageTable.c:70-105 | whether a map succeeds, and what is mapped afterwards, is what counting frames predicts, a table left behind by a failed map included |
| SimplePagingRuns.StepRefines | Project4/Part1/pageTable.c:70-155 | one command is one step of the reference machine, at every address |
| SimplePagingRuns.RefinesFlatMemory | Project4/Part1/pageTable.c:70-155 | after every run the answer to every command is that of a machine that knows only what is mapped and one address's last successful store, or zero |
| SimplePagingRuns.LoadSees | Project4/Part1/pageTable.c:135-155 | a load yields exactly what the address holds and fails exactly when it is unmapped |
| SimplePagingRuns.FramesInUse | Project4/Part1/pageTable.c:8-28 | frames in use are as many as page tables and mapped pages |
| SimplePagingRuns.MapNeeds | Project4/Part1/pageTable.c:70-105 | mapping an unmapped page succeeds exactly when one frame is free, or two if there is no table yet |
| SimplePagingRuns.FramesStayInUse | Project4/Part1/pageTable.c:47-133 | over every run a frame once in use stays in use |
| SimplePagingRuns.FramesFromTheBottom | Project4/Part1/pageTable.c:30-37 | over every run the frames in use are the lowest ones, without a gap |
| SimplePagingMachine.Machine.FrameAllocated | Project4/Part1/pageTable.c:8-28 | true exactly when a table or page has the frame |
| SimplePagingMachine.Machine.FindFreeFrame | Project4/Part1/pageTable.c:30-37 | the first free frame, or -1 if there is none |
| SimplePagingMachine.Machine.InitTable | Project4/Part1/pageTable.c:47-68 | the loop on the array does what the function InitTable says |
| SimplePagingMachine.Machine.MapPage | Project4/Part1/pageTable.c:70-105 | the array version maps as the specification does, failures included |
| SimplePagingMachine.Machine.Store | Project4/Part1/pageTable.c:107-133 | the array version stores as the specification does |
| SimplePagingMachine.Machine.Load | Project4/Part1/pageTable.c:135-155 | the array version loads as the specification does |
| SimplePagingMachine.Machine.Execute | Project4/Part1/mem.c:54-75 | one command on the array is one step of the run that the theorems are about |
| Intersection.Route | Project3/Drivers/carThread.c:95-158 | as many distinct quadrants as the turn needs |
| Intersection.RouteIsArc | Project3/Drivers/carThread.c:95-158 | a route is the counter-clockwise arc from the car's own side, as long as the turn |
| Intersection.RouteLeads | Project3/Drivers/carThread.c:95-158 | a route starts at the car's side and ends, for the first time, at the side that the turn leads to |
| Intersection.CompatibleIff | Project3/Drivers/carThread.c:95-158 | two cars from different sides can cross at once exactly when each turns off before the other's side |
| Intersection.AttemptSpec | Project3/Drivers/carThread.c:160-188 | an attempt succeeds exactly when the whole route is free, then claims exactly the route, and otherwise leaves no trace |
| IntersectionSafety.EnterAllOrNothing | Project3/Drivers/carThread.c:85-178 | the head of a queue enters exactly when it wants to and its route is free; in every other case, a repeat call included, nothing changes |
| IntersectionSafety.VisitInv | Project3/Drivers/carThread.c:212-224 | a visit lets the first car of the queue in, whatever it is doing, exactly when it wants to turn and its route is clear, and otherwise that car is blocked; so nobody of that queue sleeps unless blocked |
| IntersectionLeaving.LeaverServesAll | Project3/Drivers/carThread.c:196-225 | over the whole of leave_intersection, whatever happens in between, each queue is visited, and whoever was first in it then and wanted to turn is turning or blocked at the end |
| IntersectionLeaving.KeepsItsTurn | Project3/Drivers/carThread.c:23-53 | until somebody gives up quadrants no claim is taken away, and a car keeps its queue and its direction, going from wanting the turn to making it |
| IntersectionLeaving.ArrivesAs | Project3/Drivers/carThread.c:27-29 | a car joins the end of the queue that it chose, wanting the turn that it chose, and nothing else changes |
| IntersectionSafety.StepInv | Project3/Drivers/carThread.c:23-53 | every step of every car, arrival and spurious wake-up keeps the invariant |
| IntersectionTheorems.InitialInv | Project3/Drivers/intersection.c:40-47 | the invariant holds when all cars are away |
| IntersectionTheorems.ReachableInv | Project3/Drivers/carThread.c:23-53 | the invariant holds in every state that any interleaving reaches |
| IntersectionTheorems.ClaimsMatchRoutes | Project3/Drivers/carThread.c:85-207 | a turning car owns exactly its route, num_quadrants in number; others own nothing; turning cars are disjoint |
| IntersectionTheorems.NoLostWakeUp | Project3/Drivers/carThread.c:35-37 | whenever the lock is free, a car asleep at the intersection wants to turn and another turning car has part of its route |
| IntersectionTheorems.AcquiringNeverBlocks | Project3/Drivers/carThread.c:190-194 | a quadrant lock that is asked for is never taken |
| IntersectionTheorems.NoDeadlock | Project3/Drivers/carThread.c:23-53 | unless every car is away, some car can step without an arrival or a spurious wake-up |
| IntersectionTheorems.AtRestIffAway | Project3/Drivers/carThread.c:23-53 | nobody can step if and only if everybody is away |
| IntersectionTheorems.LockOrder | Project3/Drivers/carThread.c:39-47 | a car asks for a lock above all that it holds if and only if it has not just crossed |
| IntersectionTheorems.OrderIsBroken | Project3/Drivers/carThread.c:45 | a run from the start in which one car breaks the lock order |
| IntersectionTheorems.GoFalls | Project3/Drivers/carThread.c:23-53 | each step of a car lowers its own rank and raises nobody's |
| IntersectionTheorems.BoundedSteps | Project3/Drivers/carThread.c:23-53 | under every schedule cars take at most 22 steps for each arrival or spurious wake-up, beyond a bound set by the first state |
| IntersectionTheorems.EveryScheduleEnds | Project3/Drivers/carThread.c:23-53 | without arrivals and spurious wake-ups every schedule ends within a bound, and it can end only with every car away |
| IntersectionTheorems.AllGetAway | Project3/Drivers/carThread.c:23-53 | from every state within the invariant some schedule takes every car away |
| IntersectionTheorems.EntersInArrivalOrder | Project3/Drivers/carThread.c:55-83 | in every reachable state the cars that have entered from a direction are the first ones that joined its queue, in order |
| IntersectionTheorems.StaysFirst | Project3/Drivers/carThread.c:76-83 | a car past the check heads its queue, and only its own departure changes that |
| IntersectionTheorems.DequeuesItself | Project3/Drivers/carThread.c:227-242 | dequeue_car removes its caller and nobody else, and never meets an empty queue |
| IntersectionCode.Junction.AttemptQuadrant | Project3/Drivers/carThread.c:180-188 | claims the quadrant exactly when it is free and touches no other |
| IntersectionCode.Junction.EnterIntersection | Project3/Drivers/carThread.c:85-178 | the switch over turns and directions is Attempt on the car's route, in place |
| IntersectionCode.CarQueues.QueueCar | Project3/Drivers/carThread.c:55-74 | appends to the linked list, which stays acyclic and shares no car with another |
| IntersectionCode.CarQueues.DequeueCar | Project3/Drivers/carThread.c:227-242 | removes the first car of the linked list and nothing else, and unlinks it |
| Department.NoFight | Project3/PiratesVNinjas/human.c:206-212 | after the test at the door nobody inside is of the other team, so the abort is unreachable |
| Department.DoorOpensIff | Project3/PiratesVNinjas/human.c:66 | somebody outside may enter exactly when the department is settled on their team and a chair is empty |
| Department.WhoIsIn | Project3/PiratesVNinjas/human.c:197-249 | an entry adds the visitor and nobody else, a departure takes away the leaver and nobody else |
| Department.SitsInFirstFree | Project3/PiratesVNinjas/human.c:197-204 | the visitor gets the first empty chair and nobody else moves |
| Department.EntryDecides | Project3/PiratesVNinjas/human.c:219-231 | if the swap test holds the door is shut to both teams after the entry, and if not the alignment stays |
| Department.DepartureDecides | Project3/PiratesVNinjas/human.c:255-289 | if the swap test holds the department is the rivals' at once when nobody is left, and otherwise the door is shut to both teams; if not, a settled one stays so |
| Department.TestHandsOver | Project3/PiratesVNinjas/human.c:219-289 | once the swap test has held every later event is a departure, one for each person inside, and exactly the last settles the department on the rivals |
| Department.StepInv | Project3/PiratesVNinjas/human.c:63-85 | occupants belong to the team that the alignment implies, sit in one chair each, and a draining department is not empty, whatever the swap test says |
| Department.RunInv | Project3/PiratesVNinjas/human.c:63-85 | the same at every moment of every run |
| Department.EmptyBetweenTeams | Project3/PiratesVNinjas/human.c:65-85 | between entries by opposite teams there is a moment when every chair is empty |
| Department.DrainsCompletely | Project3/PiratesVNinjas/human.c:239-289 | a draining department sees only departures, one occupant fewer each, and changes hands at exactly the last |
| DepartmentHandover.ComesInIff | Project3/PiratesVNinjas/human.c:63-85 | some run by given people lets a team in if and only if the department is or becomes its own, or is settled with somebody inside, or a rival is among those people |
| DepartmentHandover.ShutOutForEver | Project3/PiratesVNinjas/human.c:251-289 | once rivals own the department, or are about to, with none of them inside or to come, no run lets the team in |
| DepartmentHandover.RivalsWaitForEver | Project3/PiratesVNinjas/human.c:251-272 | after one visit by the owning team to an empty department, with no rival waiting, rivals alone never get in |
| DepartmentHandover.DrainsTo | Project3/PiratesVNinjas/human.c:275-289 | a draining department can be emptied and then belongs to its new owners |
| DepartmentCode.CostumeDepartment.constructor | Project3/PiratesVNinjas/department.c:15-21 | the department starts settled and empty, with at most four chairs |
| DepartmentCode.CostumeDepartment.ChairFree | Project3/PiratesVNinjas/department.c:30-36 | true exactly when some chair exists and is empty |
| DepartmentCode.CostumeDepartment.DoorTest | Project3/PiratesVNinjas/human.c:66 | true exactly when the department is settled on the team and a chair is empty |
| DepartmentCode.CostumeDepartment.AllEmpty | Project3/PiratesVNinjas/department.c:38-44 | true exactly when nobody is in any chair |
| DepartmentCode.TimeAddsUp | Project3/PiratesVNinjas/department.c:23-28 | over any visits a chair's free and occupied times add up to the time from when it was put there to the end of its last visit, and it was occupied for as long as the visits lasted |
| DepartmentCode.CostumeDepartment.EnterDepartment | Project3/PiratesVNinjas/human.c:181-237 | seats the visitor as the specification says, keeps the invariant and never reaches the abort; puts the visit before the earlier ones, at its length in gold or for nothing after a wait of more than 30, and updates the time of that one chair |
| DepartmentCode.CostumeDepartment.LeaveDepartment | Project3/PiratesVNinjas/human.c:239-289 | the three parts in their order are the specification's departure |
| Jobs.LaunchAppends | Project1/v2/mc2.c:260-262 | launching appends to the list that the table represents |
| Jobs.NumberIsPlace | Project1/v2/cprocess.c:14-20 | the tracker found for a live job carries its place in launch order |
| Jobs.FinishRemoves | Project1/v2/waitthread.c:18-24 | completing a job removes its place and moves later jobs down; its tracker is always found |
| Jobs.FreeTrackerIff | Project1/v2/mc2.c:260 | there is a free tracker exactly while fewer jobs run than there are trackers |
| Jobs.TableRefinesList | Project1/v2/mc2.c:246-262 | over every run of launches and completions the table represents the list in launch order |
| Jobs.JobTable.FindProcess | Project1/v2/cprocess.c:14-20 | the first tracker with the pid, or none |
| Jobs.JobTable.DecrementJobs | Project1/v2/cprocess.c:7-12 | exactly the numbers above n fall by one, and so does the counter |
| Jobs.JobTable.LaunchJob | Project1/v2/mc2.c:260-262 | the table represents the list with the new job at its end; the null pointer is followed exactly when as many jobs run as there are trackers |
| Jobs.JobTable.FinishJob | Project1/v2/waitthread.c:18-24 | the table represents the list without the finished job |
| Credentials.Do | Project0/submission/sys.c:466-784 | a call that fails, or that set_user refuses a new real id, changes nothing; with helpers that agree it succeeds exactly when the ids given are among those that the call allows, or the caller is capable; each id given is taken and each one kept is kept; the fs id follows the effective id; setreuid saves the effective id exactly when a real id is given or an effective id other than the real one |
| Credentials.UnprivilegedStep | Project0/submission/sys.c:466-784 | without the capability no call brings in an id that the process did not have |
| Credentials.IdsStayInside | Project0/submission/sys.c:466-784 | over every such run real, effective and saved ids stay among the initial ones, and the fs id among those and its initial value |
| Credentials.ReachableIff | Project0/submission/sys.c:584-784 | the credentials that can be reached are exactly the initial ones, and those with three ids drawn from the initial three and an fs id among the new three |
| Credentials.SetuidIsForGood | Project0/submission/sys.c:526-577 | after a privileged setuid no unprivileged run brings another id back |
| Credentials.SetreuidIsForGood | Project0/submission/sys.c:455-460 | after setreuid with the same id twice no unprivileged run brings another id back |
| Credentials.SwapKeepsTheWayBack | Project0/submission/sys.c:533-535 | after a process has swapped its real and effective ids it acts as the other, and needs no capability to swap back |
| Credentials.SwapTwice | Project0/submission/sys.c:526-536 | swapping real and effective ids with setreuid twice restores both |
| Credentials.EqualIdsStay | Project0/submission/sys.c:466-784 | once all four ids are equal they stay so |
| Credentials.Task.SysSetreuid | Project0/submission/sys.c:466-524 | the call in place, with its error exits, agrees with Do |
| Credentials.Task.SysSetuid | Project0/submission/sys.c:537-577 | the call in place, with its error exits, agrees with Do |
| Credentials.Task.SysSetresuid | Project0/submission/sys.c:584-647 | the call in place, with its error exits, agrees with Do |
| Credentials.Task.SysSetfsuid | Project0/submission/sys.c:750-784 | returns the old fs id in every case, and agrees with Do |
| SysInfo.ShiftTotal | Project0/submission/sys.c:2359-2368 | the doubling test notices every overflow, at any word size: it passes exactly when the true product fits |
| SysInfo.ScaleSizes | Project0/submission/sys.c:2356-2385 | for a unit that is a power of two, every size becomes size times unit exactly if the total in bytes fits in a word, and otherwise nothing changes |
| SysInfo.NoWrapAround | Project0/submission/sys.c:2370-2385 | sizes that are parts of the totals are then scaled without wrap-around |
| SysInfo.BytesKeptIff | Project0/submission/sys.c:2356-2385 | all sizes mean the same number of bytes afterwards if and only if the unit is a power of two, there is nothing to scale, or the scaled total does not fit |
| SysInfo.NotAPowerOfTwo | Project0/submission/sys.c:2360-2385 | three units of three bytes are reported as six bytes, at any word size |
| Search.Contains | Project2/module/mod.c:156-179 | true exactly when a key that is not empty occurs within the first tsize characters; an index leaves a buffer exactly when the key is empty and the target contains its terminator |

## Left out

- Reading and parsing commands (Project4/Part1/mem.c, Project4/Part2/mem.c): process ids and addresses in range are preconditions, since the program only prints a complaint about a bad process id.
- Recall of a page 0 after its eviction and zeroed contents of new pages in Project4/Part2: the code provides neither.
- Branches for a negative frame in Project4/Part2/pageTable.c:188-191 and 210-213: find_free_frame never returns one there.
- PagingOps.CheckStore: requires the table in memory for a page other than the table, as every caller arranges (Project4/Part2/pageTable.c:197, 236 and 264).
- PagingMachine.Machine.CheckBackingStore: requires the table in memory for a page other than the table, as every caller arranges.
- PagingMachine.Machine.FreeSpecificFrame: writes each record in one assignment, not field by field.
- Cars: a section under one queue lock that asks for no other lock is one atomic step; the whole of a visit inside leave_intersection is one too, since its holder also has the intersection lock.
- Cars: fairness between directions; a left turn may be overtaken for ever. Random choices are free inputs, sleeps and printing are omitted.
- IntersectionCode.CarQueues.QueueCar: requires a car that is in no queue, which the protocol's invariant provides.
- Pirates and ninjas: queues, waking order and liveness. Posts on a person's semaphore can outlast a visit, so the queue order is not kept. The swap test is a free input.
- DepartmentCode.CostumeDepartment.EnterDepartment: takes the time, the wait and the length of the visit as inputs; printing the bill is omitted.
- PagingForgets.PageZeroIsForgotten: is about the calls of map_page and store that the commands make; as runs of commands only machines of two frames are covered.
- PagingForgets.PageZeroIsMisread: likewise.
- Jobs.JobTable.LaunchJob: stops where the program follows the null pointer that findProcess returns; what happens then is not modelled.
- Shell: fork, exec, wait, reaping between fork and lock, listing jobs by findJobnum, menus and tokenising; the versions Project1/v0 and Project1/v1.
- Credentials.Do: takes the kernel helpers' answers (capability, id validity, memory, set_user, security hook) as inputs; the group id calls are the same functions with the last two always agreeing and are not written out again.
- Search.Contains: stops where the search would read past the key's terminator; what is read there is not modelled.
- The rest of sys.c and mod.c, and syscalls.h: they rest on kernel helpers that are not part of this model.
- Project0's hello module and test programs: nothing to prove.
