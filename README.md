# Elevator simulation kernel in Dafny

This project models the tick-driven core of a TypeScript elevator simulation and proves properties of that model. The core is three classes:

- `Elevator` (src/Elevator.ts): one cab's motion state machine.
  - State: an elevation, a destination queue without duplicates, a hold countdown and a direction (Idle, Up, Down).
  - A derived `floor`: rounded down while Idle or Up, rounded up while Down.
  - A travel-time estimate used for dispatch.
- `Controller` (src/Controller.ts): the `execute` loop. Each iteration of one tenth of a second does, in order:
  1. ingests the raw requests due at the clock;
  2. walks the pending list backwards and assigns each request to the quickest suitable cab;
  3. offloads, then onboards, then ticks every cab in list order;
  4. advances the clock.
- `Passenger` (src/Passenger.ts): the lifecycle record of one rider. It holds optional entry and exit times and two duration getters that fail when a time is missing.

Units are integers throughout:

- A cab moves 0.5 m per tick (5 m/s), so lengths are counted in half-metres. A floor of `h` metres is `2h` units high, and `2h` is also the time per floor in tenths of a second.
- `Math.floor` and `Math.ceil` of `elevation / height` become integer division and ceiling division. `isAtFloor` becomes divisibility.
- Request times are whole seconds. The clock counts tenths of a second.

The model has two layers.

- **Specification layer: pure values.** `Elevators.Cab`, `Passengers.Rider` and `Worlds.World` are snapshots of an elevator, a passenger and the whole controller. The operations on them (`Cab.AddFloor`, `Cab.Tick`, `Dispatch.TryDispatch`, `Boarding.Offload`, `Simulation.Step`, `Simulation.Run`, …) are functions, and the lemmas state what the source promises about them.
- **Imperative layer: classes.** `Elevators.Elevator`, `Passengers.Passenger` and `Controllers.Controller` hold the source's fields and mutate them in place, with the same loops as the source:
  - the backward `for` over the pending list;
  - the `forEach` over the fleet;
  - the filtered `forEach` over the passengers;
  - the `while` loop of `execute`.

  Each method is proved to leave the object in the state given by the specification function applied to the old state. For example, `Controller.Iterate` ends with `Snapshot() == Step(rawRequests, old(Snapshot())).value`, or returns the error that `Step` reports.

`Simulation.Run` takes the loop condition as a parameter (`Simulation.LoopTest`):

- `AsWritten` is the code's test: the strict `>` on the last request's time, and only boarded, unfinished passengers counted. `Controllers.Controller.Execute` evaluates this one.
- `Intended` uses `>=` and counts every unfinished passenger, boarded or not. The corrected theorems are stated about it (see "## Findings").

Module `Completion` proves what the loop as written does guarantee. Between iterations, the cab of every unfinished passenger still owes a stop at the destination, and at the origin until boarding: the floor is queued, or the cab stands exactly at it. So a run from the constructor's state that finishes has completed every journey whose origin and destination differ.

Errors are values. An exception that leaves `execute` is an `Err` of `Common.Failure`:

- `InvalidFloorRequest(totalFloors)` when a cab refuses a floor;
- `NotYetEntered` / `NotYetExited` from the passenger getters.

Two exceptions can actually occur, and the model reproduces both:

- A request whose floor lies outside a cab's range makes `addFloorToDestinationQueue` throw during dispatch.
- An offload at clock 0 records an exit time of 0. The arrival message then reads `timeToCompletionInTenthSecond`, whose falsy check throws.

Behaviours of the code that the model keeps:

- The code does not keep the queue sorted in the direction of travel. `tick` takes the new direction from the head of the queue without re-sorting, so a queue `[2, 7]` sorted for Up is left as is when the cab turns Down. `Elevators.TurnLeavesQueueUnsorted` exhibits this.
- Offloading does not require boarding. Every uncompleted passenger of the cab whose destination is the current floor is released, boarded or not (`Boarding.Alights`).
- The travel-time estimate also counts a stop at the target (`floor <= targetFloor`), not only the stops strictly between the current floor and the target (`Elevators.Cab.TimeToFloorStops`).
- An empty queue at the end of a moving tick compares `undefined > floor`, which is false. The cab therefore turns Down, not Idle. It becomes Idle only on a later tick with no hold left (`Elevators.IdleOnlyAfterHold`).

## Model

| member | source | states |
|---|---|---|
| `Elevators.Cab.FloorBounds` | src/Elevator.ts:31-37 | while Idle or Up the floor is the largest floor at or below the elevation; while Down, the smallest at or above it |
| `Elevators.Cab.AtFloorIsExact` | src/Elevator.ts:39-41 | `isAtFloor` holds exactly when the elevation is the floor times the floor height |
| `Elevators.Cab.FloorInRange` | src/Elevator.ts:31-37 | a valid cab's floor lies in [0, totalFloors] |
| `Elevators.Cab.RemoveCurrentFloor` | src/Elevator.ts:75-78 | the new queue holds exactly the old entries other than the current floor, with the same multiplicities; nothing but the queue changes; floor, `isAtFloor` and validity are kept |
| `Elevators.Cab.RemoveCurrentFloorTwice` | src/Elevator.ts:75-78 | removing the current floor is idempotent |
| `Elevators.Cab.AddFloorFails` | src/Elevator.ts:80-88 | adding fails exactly for an unqueued floor below 0 or above totalFloors, with the error naming totalFloors |
| `Elevators.Cab.AddFloorNoOp` | src/Elevator.ts:80-92 | a queued floor, or the current floor of a holding or idle cab, leaves the cab unchanged |
| `Elevators.Cab.AddFloorQueues` | src/Elevator.ts:94-107 | otherwise the queue becomes the old entries plus the floor, without duplicates; an idle cab turns Down iff its floor is above the target and Up iff below; a moving cab keeps its direction; the queue is sorted ascending when Up and descending when Down; nothing else changes |
| `Elevators.Cab.AddFloorKeeps` | src/Elevator.ts:80-107 | a successful add keeps every queued floor, queues the new floor unless it was a no-op at the current floor, and keeps id, shape, elevation and hold |
| `Elevators.Cab.AddFloorValid` | src/Elevator.ts:80-107 | a successful add keeps the cab's invariant: no duplicates, entries in range, a queue only while moving |
| `Elevators.Cab.TimeToFloor` | src/Elevator.ts:110-132 | the estimate is zero exactly for the current floor; otherwise it is at least the travel time plus the remaining hold |
| `Elevators.Cab.TimeToFloorStops` | src/Elevator.ts:110-132 | on a valid cab, beyond travel and remaining hold, the estimate charges 100 per distinct queued floor strictly past the current floor and up to the target in the direction of travel; an idle cab is charged travel and hold only |
| `Elevators.StopCountIsSetSize` | src/Elevator.ts:124-127 | on a duplicate-free queue, the stop count is the number of distinct queued floors between current floor and target |
| `Elevators.TickValid` | src/Elevator.ts:134-166 | a tick keeps the invariant; in particular the elevation stays within [0, totalFloors × height] |
| `Elevators.TickHolding` | src/Elevator.ts:136-146 | with a hold left, a tick only decrements the hold |
| `Elevators.TickWithoutDestination` | src/Elevator.ts:148-152 | with no hold and an empty queue, a tick only sets Idle |
| `Elevators.TickMoves` | src/Elevator.ts:154-166 | a moving tick changes the elevation by one step in the direction of travel, unless at the shaft's end; on landing at a queued floor it starts a hold of 100 and dequeues that floor, otherwise queue and hold are kept; the new direction is Up iff the queue head lies above the floor |
| `Elevators.HoldCountsDown` | src/Elevator.ts:136-146 | `n` ticks of a cab holding for at least `n` only count the hold down by `n` |
| `Elevators.IdleOnlyAfterHold` | src/Elevator.ts:149-165 | a cab that lands with an empty queue stays Down through the hold and becomes Idle on the tick after it |
| `Elevators.ClimbStep` | src/Elevator.ts:154-165 | a climbing cab short of its single target floor moves up one step and changes nothing else |
| `Elevators.ClimbLand` | src/Elevator.ts:154-165 | the step that reaches the target floor starts a full hold, empties the queue and turns the cab Down |
| `Elevators.ClimbArrives` | src/Elevator.ts:154-165 | a climb to a single target takes exactly the remaining elevation difference in ticks and ends holding at the target |
| `Elevators.Parked` | src/Elevator.ts:23-29 | a new cab at floor `f` is valid and stands exactly at floor `f` |
| `Elevators.TimeToTopExample` | src/Elevator.ts:110-131 | a 3 m floor from 0 to 50 takes 300 tenths |
| `Elevators.TimeToTopWithStopExample` | src/Elevator.ts:110-131 | the same with floor 10 queued first takes 400 tenths |
| `Elevators.TimeTwoFloorsDownExample` | src/Elevator.ts:110-131 | from floor 7 to floor 5 takes 12 tenths |
| `Elevators.TimeCountsTargetStopExample` | src/Elevator.ts:110-131 | from floor 0 to 5 with stops 2 and 5 queued takes 30 + 200 tenths |
| `Elevators.OneFloorRequestExample` | src/Elevator.ts:94-105 | an idle cab at floor 0 asked for floor 1 queues it and turns Up |
| `Elevators.OneFloorClimbExample` | src/Elevator.ts:134-166 | six ticks bring it to floor 1 holding for 100; the seventh leaves 99 |
| `Elevators.TenFloorClimbExample` | src/Elevator.ts:134-166 | 60 ticks take a 3 m cab from floor 0 to floor 10, holding for 100 |
| `Elevators.TurnLeavesQueueUnsorted` | src/Elevator.ts:160-165 | a cab at 5 asked for 7 then 2 has queue [2, 7] while Up; its next tick turns it Down with the queue unsorted for Down |
| `Elevators.Elevator.constructor` | src/Elevator.ts:23-29 | a new elevator is the parked cab at its starting floor |
| `Elevators.Elevator.RemoveFloorFromDestinationQueue` | src/Elevator.ts:75-78 | the new state is the old one with the current floor removed from the queue |
| `Elevators.Elevator.AddFloorToDestinationQueue` | src/Elevator.ts:80-108 | returns no error iff the add succeeds, and then the new state is the added cab; on error the state is unchanged and the error is the add's |
| `Elevators.Elevator.Tick` | src/Elevator.ts:134-166 | the new state is the old state ticked |
| `Elevators.Elevator.Move` | src/Elevator.ts:154-158 | the elevation moves one step in the direction of travel, clamped at the ends |
| `Elevators.Elevator.Serve` | src/Elevator.ts:160-163 | at a queued floor, a hold of 100 starts and the floor is dequeued |
| `Elevators.Elevator.Head` | src/Elevator.ts:165 | the direction becomes Up iff the queue head lies above the floor |
| `Elevators.MoveToRequestedFloor` | src/Elevator.ts:134-166 | an elevator object asked for floor 10 and ticked 60 times is at floor 10 with a hold of 100 |
| `Queues.DedupeSpec` | src/Elevator.ts:95 | removing duplicates leaves no duplicates, keeps exactly the same members, and changes nothing in a duplicate-free list |
| `Queues.RemoveAll` | src/Elevator.ts:76 | the filter keeps exactly the other entries, each with its multiplicity |
| `Queues.RemoveAllAppend` | src/Elevator.ts:76 | the filter distributes over concatenation, so the kept entries stay in their order |
| `Queues.NoDuplicatesRemoveAll` | src/Elevator.ts:76 | filtering keeps a duplicate-free queue duplicate-free |
| `Queues.SortSpec` | src/Elevator.ts:101-105 | the numeric sort in either direction yields a sorted permutation of the queue |
| `Passengers.Rider.TimeToCompletion` | src/Passenger.ts:24-30 | defined iff the exit time is present and non-zero, and then equals exit minus request time; otherwise fails "not yet exited" |
| `Passengers.Rider.TimeInElevator` | src/Passenger.ts:33-43 | defined iff both times are present and non-zero, and then equals exit minus entry time; a missing or zero entry time fails "not yet entered" first, then a missing or zero exit time fails "not yet exited" |
| `Passengers.NewRider` | src/Passenger.ts:9-22 | a new record stores the four given values and is neither entered nor completed |
| `Passengers.Passenger.constructor` | src/Passenger.ts:9-14 | a new passenger object holds the new record |
| `Passengers.Passenger.SetTimeEnteredElevator` | src/Passenger.ts:45-48 | only the entered time is set, after which the passenger has entered |
| `Passengers.Passenger.SetTimeExitedElevator` | src/Passenger.ts:50-53 | only the exited time is set, after which the journey is completed |
| `Passengers.DurationExamples` | src/Passenger.ts:24-43 | requested 100, entered 200 and exited 500 give 400 and 300; missing times fail with the right error |
| `Passengers.ZeroTimeCountsAsMissing` | src/Passenger.ts:24-43 | times of 0 count as set for the `has*` getters but as missing for both durations |
| `Worlds.TimelyDurations` | src/Passenger.ts:24-43 | for a record whose times are consistent with the clock, both durations are defined once it has exited (the entry time being non-zero) and never negative |
| `Worlds.RidersProgressTransitive` | src/Controller.ts:11 | "the passenger list only grows and each record only progresses" composes over several steps |
| `Requests.Found` | src/Controller.ts:85-91 | the requests found at a clock are exactly the raw requests whose time × 10 equals it |
| `Requests.FoundCounts` | src/Controller.ts:85-91 | each such request is found as many times as it occurs in the raw list, every other none |
| `Requests.FoundIsSubsequence` | src/Controller.ts:85-91 | the found requests keep their raw order |
| `Requests.Ingested` | src/Controller.ts:42-43 | the requests ingested before a clock are exactly the raw requests with 0 ≤ time × 10 < clock |
| `Requests.IngestedGrows` | src/Controller.ts:42-43 | each tick ingests exactly the requests found at it: the ingested requests one tick later are those before plus those found, with their multiplicities |
| `Requests.NothingIngestedAtStart` | src/Controller.ts:12 | nothing is ingested before clock 0 |
| `Requests.IngestedAll` | src/Controller.ts:93-96 | once every raw request lies behind the clock, the ingested requests are all raw requests with a non-negative time |
| `Requests.NoEventsAfter` | src/Controller.ts:93-96 | with raw requests in time order and no event ahead, every raw request lies behind the clock |
| `Requests.EventsAfterDiffer` | src/Controller.ts:93-96 | the written and the intended test differ exactly when the last request falls due at the clock |
| `Requests.SortByTimeDescSpec` | src/Controller.ts:43 | the pending list's sort yields a permutation sorted by descending time |
| `Dispatch.Quickest` | src/Controller.ts:102-120 | none iff no cab is a candidate (idle, or Up at or below an ascending request's origin, or Down at or above any other's); otherwise a candidate of least time to the origin, the first in fleet order among equals |
| `Dispatch.TryDispatch` | src/Controller.ts:45-67 | one attempt never disturbs the pending entries below its index, so the backward pass is splice-safe |
| `Dispatch.TryDispatchWith` | src/Controller.ts:58-67 | with a chosen cab that accepts both floors, the cab is replaced by the assigned one, one record is appended and the request is spliced out |
| `Dispatch.NoCandidateStaysPending` | src/Controller.ts:58-61 | without a candidate nothing changes: the request stays pending and no record is added |
| `Dispatch.TryDispatchAssigns` | src/Controller.ts:58-67 | a dispatch appends exactly one record, with request time × 10, the request's floors and the chosen cab's id, neither entered nor completed; it removes the request, changes only the chosen cab, and leaves pickup and destination queued or already served at the cab's floor |
| `Dispatch.DispatchDownStep` | src/Controller.ts:45-68 | after a successful attempt at index i the pass continues below i |
| `Dispatch.DispatchDownStops` | src/Controller.ts:45-68 | a failed attempt ends the pass with its error |
| `Dispatch.TryDispatchConserves` | src/Controller.ts:58-67 | an attempt keeps the old records as a prefix, and the pending requests plus the new records' requests are the old pending requests |
| `Dispatch.DispatchDownConserves` | src/Controller.ts:45-68 | the whole pass conserves requests in the same way |
| `Dispatch.TryDispatchAdds` | src/Controller.ts:66 | an attempt adds no record or exactly one, for the request at its index |
| `Dispatch.DispatchDownFrom` | src/Controller.ts:45-68 | records added by a pass come from requests no earlier than a bound that all visited entries meet |
| `Dispatch.DispatchDownInOrder` | src/Controller.ts:43-68 | over a list sorted by descending time, the backward pass adds records in non-decreasing request time |
| `Dispatch.TryDispatchValid` | src/Controller.ts:64-65 | an attempt keeps every cab's invariant |
| `Dispatch.DispatchDownValid` | src/Controller.ts:45-68 | the pass keeps every cab's invariant |
| `Dispatch.TryDispatchSucceeds` | src/Controller.ts:64-65 | an attempt fails only with a floor out of range, and never when both floors are in range of every cab |
| `Dispatch.DispatchDownSucceeds` | src/Controller.ts:45-68 | the pass fails only with a floor out of range, and never when all pending floors are in range |
| `Dispatch.TryDispatchTimely` | src/Controller.ts:66 | a new record's request time is not in the future, and old records only progress |
| `Dispatch.DispatchDownTimely` | src/Controller.ts:45-68 | the pass keeps every record consistent with the clock |
| `Boarding.TotalCompletionTime` | src/Controller.ts:28-36 | the sum over completed passengers fails, with "not yet exited", exactly when one of them has exit time 0 |
| `Boarding.SamePlatform` | src/Controller.ts:128-132 | removing the current floor does not change who alights or boards, so filtering first and acting in the loop agree |
| `Boarding.OffloadFromSpec` | src/Controller.ts:127-134 | a successful pass sets the exit time of exactly the alighting passengers; the cab drops its floor iff someone alighted |
| `Boarding.OffloadFromSkips` | src/Controller.ts:128 | a passenger who does not alight is skipped |
| `Boarding.OffloadFromAlights` | src/Controller.ts:129-134 | an alighting passenger gets the exit time and the cab drops its floor; the getters in the arrival message then either fail or let the pass continue |
| `Boarding.OffloadSpec` | src/Controller.ts:122-135 | away from a floor nothing changes; at a floor exactly the uncompleted passengers of this cab bound for this floor get the exit time, boarded or not; the cab drops its floor iff one did |
| `Boarding.OffloadFromFails` | src/Controller.ts:129-134 | with no earlier zero exit time, the pass fails iff the clock is 0 and someone alights |
| `Boarding.OffloadFails` | src/Controller.ts:122-135 | offloading fails, with "not yet exited", iff the cab is at a floor, the clock is 0 and someone alights |
| `Boarding.OffloadFromError` | src/Controller.ts:129-134 | the only error the pass raises is "not yet exited" |
| `Boarding.Boarded` | src/Controller.ts:142-153 | exactly the passengers of this cab waiting at its floor, neither entered nor completed, get the entry time; everyone else is unchanged |
| `Boarding.OffloadTimely` | src/Controller.ts:122-135 | offloading keeps records consistent with the clock, only progressing, and keeps the cabs valid |
| `Boarding.OnboardTimely` | src/Controller.ts:137-154 | onboarding keeps records consistent with the clock and only progressing, and touches nothing but records |
| `Simulation.ServeOneSpec` | src/Controller.ts:70-74 | serving one cab changes only that cab, which is ticked once after dropping its floor if someone alighted; records stay consistent and only progress |
| `Simulation.ServeFromStep` | src/Controller.ts:70-77 | the `forEach` continues with the next cab after a served one |
| `Simulation.ServeFromStops` | src/Controller.ts:70-77 | a failure while serving a cab ends the pass with that error |
| `Simulation.ServeFromPreserves` | src/Controller.ts:70-77 | serving the cabs keeps cab validity and identity, record consistency, pending list and clock |
| `Simulation.ServeFromSucceeds` | src/Controller.ts:70-77 | with the clock past 0, serving the cabs cannot fail |
| `Simulation.ServeFromError` | src/Controller.ts:70-77 | any serving failure is "not yet exited" |
| `Simulation.IngestSpec` | src/Controller.ts:42-43 | ingestion adds exactly the requests due now to the pending list, sorted by descending time, and keeps everything else |
| `Simulation.InitialConsistent` | src/Controller.ts:14-18 | the loop invariant holds before the first iteration |
| `Simulation.ConsistentCounts` | src/Controller.ts:41-82 | under the invariant, records plus pending requests number the requests ingested so far, and each pending request is a raw request |
| `Simulation.PhasesConsistent` | src/Controller.ts:41-79 | ingest, dispatch and serve in sequence keep the invariant, at the same clock |
| `Simulation.StepConsistent` | src/Controller.ts:41-82 | an iteration keeps the invariant (valid cabs, records consistent with the clock, pending requests plus recorded requests equal to those ingested), advances the clock by exactly one, keeps the cabs, and lets records only progress |
| `Simulation.StepFails` | src/Controller.ts:41-82 | an iteration fails only with a floor out of range, or with "not yet exited" at clock 0; it never fails after clock 0 when all raw floors are in range of every cab |
| `Simulation.RunConsistent` | src/Controller.ts:38-83 | a run of the loop, under either loop condition, keeps the invariant whatever its outcome, never turns the clock back, keeps the cabs and lets records only progress |
| `Simulation.FinishedStops` | src/Controller.ts:80 | a run that finishes ends where its loop condition fails |
| `Simulation.Quiescent` | src/Controller.ts:20-26 | when the intended loop condition fails on a consistent world with raw requests in time order, nothing is pending, no queue is non-empty, every passenger has completed the journey, and the records' requests are the raw requests with non-negative time |
| `Simulation.RunFinished` | src/Controller.ts:38-83 | a finished run of the intended loop from a consistent world ends in that quiescent state: one record per raw request, every journey completed |
| `Simulation.QuietStep` | src/Controller.ts:41-79 | before the only request falls due, an iteration on a quiet world only advances the clock |
| `Simulation.QuietRunAsWritten` | src/Controller.ts:93-100 | the loop as written runs such a world to clock 10 and stops there |
| `Simulation.AsWrittenDropsLastRequest` | src/Controller.ts:93-96 | with the strict comparison the loop stops at clock 10 with no record, although the only request falls due at 10 and the intended condition still holds |
| `Controllers.AssignFloors` | src/Controller.ts:64-65 | the elevator object is given the pickup floor, then the destination floor, ending in the state the assignment function gives or with its error |
| `Controllers.Controller.constructor` | src/Controller.ts:14-18 | a new controller is at clock 0 with no record and nothing pending |
| `Controllers.Controller.IngestRequests` | src/Controller.ts:42-43 | the pending list becomes the ingested one |
| `Controllers.Controller.DispatchAt` | src/Controller.ts:46-67 | one iteration of the backward `for` leaves the state given by the dispatch attempt, or its error |
| `Controllers.Controller.AssignCab` | src/Controller.ts:64-65 | only the chosen elevator changes, to the assigned cab |
| `Controllers.Controller.RecordPassenger` | src/Controller.ts:66-67 | a fresh passenger is appended and the request spliced out |
| `Controllers.Controller.DispatchPending` | src/Controller.ts:45-68 | the backward `for` leaves the state of the whole dispatch pass, or its error |
| `Controllers.Controller.OffloadPassengers` | src/Controller.ts:122-135 | the state after offloading is the offload function's, or its error |
| `Controllers.Controller.AlightAt` | src/Controller.ts:129-134 | one iteration of the offloading `forEach` |
| `Controllers.Controller.OnboardPassengers` | src/Controller.ts:137-154 | the state after onboarding is the onboard function's |
| `Controllers.Controller.ServeElevators` | src/Controller.ts:70-77 | the `forEach` over the fleet leaves the state of the serving pass, or its error |
| `Controllers.Controller.ServeElevator` | src/Controller.ts:70-74 | one cab offloaded, onboarded and ticked |
| `Controllers.Controller.TickElevator` | src/Controller.ts:73 | only that elevator changes, by one tick |
| `Controllers.Controller.Iterate` | src/Controller.ts:41-81 | one iteration of the `while` body leaves the state `Step` gives, or `Step`'s error |
| `Controllers.Controller.Execute` | src/Controller.ts:38-83 | the loop ends with the outcome of the run under the loop condition as written and, unless it crashed, in the run's final state |
| `Controllers.Controller.Advance` | src/Controller.ts:79-100 | one iteration and the test of the loop condition as written (`>` on the last request's time, boarded passengers only), with the rest of the run unchanged |
| `Completion.FloorAtFloor` | src/Elevator.ts:31-37 | exactly at a floor, the floor seen is the same in every direction |
| `Completion.TickAwaits` | src/Elevator.ts:134-166 | a queued floor is still awaited after a tick: it stays queued, or the cab has just landed exactly there |
| `Completion.TickSettled` | src/Elevator.ts:134-166 | a tick empties a queue only on landing at a floor |
| `Completion.AddFloorAwaits` | src/Elevator.ts:80-107 | after adding a floor to a valid settled cab, the floor is awaited, every floor awaited before still is, and the cab stays settled |
| `Completion.AssignAwaits` | src/Controller.ts:64-65 | the chosen cab ends settled, with its id, awaiting both the pickup and the destination floor |
| `Completion.AssignKeeps` | src/Controller.ts:64-65 | taking a request keeps every stop the cab already owed its passengers |
| `Completion.OwesProgress` | src/Passenger.ts:45-53 | a record that only progressed is owed no more stops than before |
| `Completion.TryDispatchTracked` | src/Controller.ts:58-67 | one dispatch attempt keeps every passenger, the new one included, owed its stops by a cab with its elevator id |
| `Completion.DispatchDownTracked` | src/Controller.ts:45-68 | so does the backward pass |
| `Completion.ServedOwes` | src/Controller.ts:122-154 | after offloading and onboarding at a cab, its unfinished passenger has the destination queued, and the origin too unless boarded |
| `Completion.ServeOneTracked` | src/Controller.ts:70-74 | offloading, onboarding and ticking one cab keeps every passenger owed its stops |
| `Completion.ServeFromTracked` | src/Controller.ts:70-77 | so does the pass over the fleet |
| `Completion.StepTracked` | src/Controller.ts:41-79 | one iteration keeps every passenger owed its stops |
| `Completion.RunTracked` | src/Controller.ts:38-83 | a run under either loop condition, whatever its outcome, keeps the invariant and the tracking |
| `Completion.StoppedStrands` | src/Controller.ts:20-26 | where the loop condition as written fails on a tracked world, every unfinished passenger never boarded, has origin equal to destination, and has a cab with its id standing at that floor |
| `Completion.InitialTracked` | src/Controller.ts:14-18 | before the first iteration, with every cab settled, the world is tracked |
| `Completion.JourneysComplete` | src/Controller.ts:38-100 | a finished run of `execute` as written from the constructor's state has completed every journey whose origin differs from its destination; any other unfinished passenger never boarded and has a cab at its floor |
| `Completion.SameFloorDispatch` | src/Controller.ts:41-79 | with one cab parked at floor 0 and the request `[0, 3, 3]`, the first iteration queues floor 3 once, records the passenger and starts the climb |
| `Completion.SameFloorClimbStep` | src/Controller.ts:41-79 | below floor 3 an iteration only moves the cab one step up |
| `Completion.SameFloorLands` | src/Elevator.ts:154-165 | the iteration that reaches floor 3 dequeues it, starts the hold and turns the cab Down; the passenger is still waiting |
| `Completion.SameFloorAlights` | src/Controller.ts:122-135 | at floor 3 the cab lets the passenger alight although the passenger never boarded |
| `Completion.SameFloorClimbGoesOn` | src/Controller.ts:20-26 | while floor 3 is queued, both loop conditions hold |
| `Completion.SameFloorLandedTests` | src/Controller.ts:20-26 | on landing, the loop condition as written fails and the intended one holds |
| `Completion.SameFloorStart` | src/Controller.ts:38-83 | under either loop condition the run goes on after the first iteration |
| `Completion.SameFloorClimbRun` | src/Controller.ts:38-83 | each climbing iteration below the landing hands the run on to the next elevation |
| `Completion.SameFloorFinal` | src/Controller.ts:38-83 | the landing iteration ends the loop as written; the intended loop ends one iteration later |
| `Completion.SameFloorRun` | src/Controller.ts:38-83 | from any elevation of the climb, the loop as written ends on landing and the intended loop after the alighting |
| `Completion.SameFloorStrandedAsWritten` | src/Controller.ts:20-26 | `execute` as written, on that request, finishes at clock 18 with the passenger neither boarded nor arrived |
| `Completion.SameFloorCompletesIntended` | src/Controller.ts:20-26 | the intended loop, on the same request, finishes at clock 19 with the journey completed |

## Left out

- src/MessageLogger.ts is not part of this model. The logger's calls are no-ops. The exceptions are the getters read for its arguments: `timeToCompletionInTenthSecond` and the total completion time, which are evaluated in the offloading loop (`Boarding.OffloadFrom`) because they can throw.
- The duplicated logging branch in `tick` (src/Elevator.ts:139-143) only logs, so it is not modelled.
- The commented-out same-floor case (src/Controller.ts:48-55) is not modelled. A request with equal floors is dispatched like any other and takes the descending branch; "## Findings" shows where such a passenger ends up.
- Floating point is not modelled. Elevations are whole half-metres, so floor heights must be whole half-metres. Request times are whole seconds. Numbers are unbounded integers, so values beyond 2^53 are not modelled.
- Boarding.TotalCompletionTime: states when the sum fails, not its value. It is kept in tenths of a second: the `/ 10` that yields a float is left out, and the value only feeds the logger.
- Requests.SortByTimeDesc: the stability of the JavaScript sort (equal times keep their order) is built into the insertion order but not stated as a lemma. Only sortedness and permutation are proved.
- Controllers.Controller.Execute: `execute` has no starvation guard and need not terminate. The loop is bounded by a `fuel` count of iterations, and the result `OutOfFuel` marks a run that did not end within it.
- Controllers.Controller.Execute: after an exception the source leaves its objects partly updated. The model states only the error, not the state after it.
- Controllers.Controller.constructor: requires the elevator objects to be distinct. The source would accept the same object twice in the array, and that aliasing is not modelled.
- src/index.ts (wiring, random starting floors, console output), src/requestEvents.ts (the request data set) and adjust-imports.mjs (a build script) are not part of this model.
- The passengers' elevator and per-tick log messages (`passengerPressesButton`, `elevatorRespondsToCall`, `setCurrentTimeInTenthOfASecond`) are not modelled.

## Findings

| source | as written | input that shows it | evidently intended | confidence | as-written member | corrected member |
|---|---|---|---|---|---|---|
| src/Controller.ts:95 | the loop goes on only while the last raw request's time × 10 is strictly greater than the new clock | one cab parked at floor 0 and the single request `[1, 3, 4]`: after the iteration at clock 9 the clock is 10, the test `10 > 10` fails, nothing else is pending, and the loop ends before the request is ingested at clock 10 | `>=`, so that the last request is still ingested, dispatched and served | not executed; proved about the model | `Simulation.AsWrittenDropsLastRequest` | `Simulation.RunFinished` |
| src/Controller.ts:20-25 | `hasIncompleteRequests` counts a passenger only once boarded (`hasEnteredElevator && !hasCompletedJourney`) | one cab parked at floor 0 of a five-floor building with 3 m floors and the single request `[0, 3, 3]`: the cab queues floor 3 once, and the step that lands there at clock 18 dequeues it; the passenger waiting at floor 3 has not boarded, nothing is queued or pending, and the loop ends with the journey incomplete | `execute` returns only when every journey is complete, as its tests check with `every(passenger => passenger.hasCompletedJourney)`; this needs every unfinished passenger counted | not executed; proved about the model | `Completion.SameFloorStrandedAsWritten` | `Simulation.RunFinished`, `Completion.SameFloorCompletesIntended` |

The corrected tests are `Requests.HasEventsAfter` and `Simulation.HasIncompleteJourneys`, combined in `Simulation.StillRunning` and selected by `Simulation.LoopTest.Intended`. `Requests.EventsAfterDiffer` shows that the first differs from the written test exactly when the last request falls due at the clock. `Completion.JourneysComplete` shows that the second fix matters only for passengers whose origin equals their destination: the loop as written completes every other journey.
