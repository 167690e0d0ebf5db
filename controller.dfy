/**
 * The controller object: the fleet of elevator objects, the raw request
 * list, the pending requests, the passenger objects and the clock, updated
 * in place by the loop of `execute`. Every method is proved to change the
 * snapshot of this state exactly as the functions of `Simulation`,
 * `Dispatch` and `Boarding` say.
 */
module Controllers {
  import opened Common
  import opened Passengers
  import opened Elevators
  import opened Requests
  import opened Worlds
  import opened Dispatch
  import opened Boarding
  import opened Simulation

  /** The cabs of a list of elevator objects, in list order. */
  function FleetOf(es: seq<Elevator>): (r: seq<Cab>)
    reads es
    ensures |r| == |es| && forall i :: 0 <= i < |es| ==> r[i] == es[i].Model()
  {
    seq(|es|, i reads es requires 0 <= i < |es| => es[i].Model())
  }

  /** The records of a list of passenger objects, in list order. */
  function RidersOf(ps: seq<Passenger>): (r: seq<Rider>)
    reads ps
    ensures |r| == |ps| && forall i :: 0 <= i < |ps| ==> r[i] == ps[i].Model()
  {
    seq(|ps|, i reads ps requires 0 <= i < |ps| => ps[i].Model())
  }

  /** A method's outcome as a result: the new state, or the error that ended the run. */
  function AsResult(error: Option<Failure>, w: World): Result<World> {
    if error.None? then Ok(w) else Err(error.value)
  }

  ghost predicate Distinct<T>(s: seq<T>) {
    forall i, j :: 0 <= i < j < |s| ==> s[i] != s[j]
  }

  /** The pickup floor, then the destination floor; the first floor refused is the error. */
  method AssignFloors(elevator: Elevator, request: Request) returns (error: Option<Failure>)
    modifies elevator
    ensures error.None? <==> Assign(old(elevator.Model()), request).Ok?
    ensures error.None? ==> elevator.Model() == Assign(old(elevator.Model()), request).value
    ensures error.Some? ==> error.value == Assign(old(elevator.Model()), request).error
  {
    error := elevator.AddFloorToDestinationQueue(request.origin);
    if error.Some? {
      return;
    }
    error := elevator.AddFloorToDestinationQueue(request.destination);
  }

  class Controller {
    const elevators: seq<Elevator>
    const rawRequests: seq<Request>
    var unprocessedRequests: seq<Request>
    var passengers: seq<Passenger>
    var clock: nat

    /** No elevator and no passenger object appears twice. */
    ghost predicate Valid()
      reads this
    {
      Distinct(elevators) && Distinct(passengers)
    }

    /** The whole state as a value. */
    function Snapshot(): World
      reads this, elevators, passengers
    {
      World(FleetOf(elevators), RidersOf(passengers), unprocessedRequests, clock)
    }

    /** A controller over distinct elevator objects, with no passenger, nothing pending, at time 0. */
    constructor (elevators: seq<Elevator>, rawRequests: seq<Request>)
      requires Distinct(elevators)
      ensures Valid() && this.elevators == elevators && this.rawRequests == rawRequests
      ensures Snapshot() == Initial(FleetOf(elevators))
    {
      this.elevators := elevators;
      this.rawRequests := rawRequests;
      unprocessedRequests := [];
      passengers := [];
      clock := 0;
    }

    /** The requests due now join the pending ones, sorted by descending time. */
    method IngestRequests()
      modifies this
      ensures passengers == old(passengers)
      ensures Snapshot() == Ingest(rawRequests, old(Snapshot()))
    {
      var found := Found(rawRequests, clock);
      unprocessedRequests := SortByTimeDesc(found + unprocessedRequests);
    }

    /**
     * The body of the pending pass for the request at index `i`: the quickest
     * cab gets the pickup and destination floors, a new passenger object is
     * appended and the request leaves the pending list. An error is a floor
     * the cab refuses, after which the state is not specified.
     */
    method DispatchAt(i: nat) returns (error: Option<Failure>)
      requires Valid() && i < |unprocessedRequests|
      modifies this, elevators
      ensures fresh(set p | p in passengers && p !in old(passengers))
      ensures Valid()
      ensures AsResult(error, Snapshot()) == TryDispatch(old(Snapshot()), i)
    {
      ghost var w := Snapshot();
      var request := unprocessedRequests[i];
      var quickest := Quickest(FleetOf(elevators), request);
      if quickest.None? {
        return None;
      }
      var k := quickest.value;
      error := AssignCab(k, request);
      if error.Some? {
        return;
      }
      TryDispatchWith(w, i, k, elevators[k].Model());
      RecordPassenger(i, elevators[k].id);
    }

    /** The floors of `request` for elevator `k`; the other elevators do not change. */
    method AssignCab(k: nat, request: Request) returns (error: Option<Failure>)
      requires Valid() && k < |elevators|
      modifies elevators[k]
      ensures error.None? <==> Assign(old(elevators[k].Model()), request).Ok?
      ensures error.None? ==> elevators[k].Model() == Assign(old(elevators[k].Model()), request).value
      ensures error.Some? ==> error.value == Assign(old(elevators[k].Model()), request).error
      ensures FleetOf(elevators) == old(FleetOf(elevators))[k := elevators[k].Model()]
    {
      error := AssignFloors(elevators[k], request);
      forall j | 0 <= j < |elevators| && j != k ensures unchanged(elevators[j]) {
        assert elevators[j] != elevators[k];
      }
    }

    /** A new passenger object for the request at `i`, which leaves the pending list. */
    method RecordPassenger(i: nat, elevatorId: int)
      requires Valid() && i < |unprocessedRequests|
      modifies this
      ensures fresh(set p | p in passengers && p !in old(passengers))
      ensures Valid()
      ensures var q := old(unprocessedRequests[i]);
        Snapshot() == old(Snapshot()).(
          riders := old(Snapshot()).riders + [NewRider(q.time * 10, q.origin, q.destination, elevatorId)],
          pending := old(unprocessedRequests[..i] + unprocessedRequests[i + 1..]))
    {
      var request := unprocessedRequests[i];
      var passenger := new Passenger(request.time * 10, request.origin, request.destination, elevatorId);
      passengers := passengers + [passenger];
      unprocessedRequests := unprocessedRequests[..i] + unprocessedRequests[i + 1..];
      assert RidersOf(passengers) == old(RidersOf(passengers)) + [passenger.Model()];
    }

    /** The pending pass, from the last index to the first; an error ends it at once. */
    method DispatchPending() returns (error: Option<Failure>)
      requires Valid()
      modifies this, elevators
      ensures fresh(set p | p in passengers && p !in old(passengers))
      ensures Valid()
      ensures error.None? <==> DispatchAll(old(Snapshot())).Ok?
      ensures error.None? ==> Snapshot() == DispatchAll(old(Snapshot())).value
      ensures error.Some? ==> error.value == DispatchAll(old(Snapshot())).error
    {
      var i: nat := |unprocessedRequests|;
      while i > 0
        invariant Valid()
        invariant i <= |unprocessedRequests|
        invariant DispatchDown(Snapshot(), i) == DispatchAll(old(Snapshot()))
        invariant fresh(set p | p in passengers && p !in old(passengers))
        decreases i
      {
        i := i - 1;
        ghost var w := Snapshot();
        error := DispatchAt(i);
        if error.Some? {
          DispatchDownStops(w, i, error.value);
          return;
        }
        DispatchDownStep(w, i, Snapshot());
      }
      error := None;
    }

    /**
     * `offLoadPassengers` for elevator `k`: at a floor, each passenger of the
     * cab bound for it gets the exit time, the cab drops the floor, and the
     * arrival message reads the journey time and the total; the message
     * fails on an exit time of 0, after which the state is not specified.
     */
    method OffloadPassengers(k: nat) returns (error: Option<Failure>)
      requires Valid() && k < |elevators|
      modifies elevators[k], passengers
      ensures error.None? <==> Offload(old(Snapshot()), k).Ok?
      ensures error.None? ==> Snapshot() == Offload(old(Snapshot()), k).value
      ensures error.Some? ==> error.value == Offload(old(Snapshot()), k).error
    {
      if !elevators[k].Model().IsAtFloor() {
        return None;
      }
      var j := 0;
      while j < |passengers|
        invariant j <= |passengers|
        invariant OffloadFrom(Snapshot(), k, j) == Offload(old(Snapshot()), k)
      {
        error := AlightAt(k, j);
        if error.Some? {
          return;
        }
        j := j + 1;
      }
      error := None;
    }

    /**
     * The `forEach` body for passenger `j`, if it alights from elevator `k`:
     * the exit time, the floor dropped from the queue, then the arrival
     * message, which reads the journey time and the total.
     */
    method AlightAt(k: nat, j: nat) returns (error: Option<Failure>)
      requires Valid() && k < |elevators| && j < |passengers|
      modifies elevators[k], passengers[j]
      ensures error.None? ==> OffloadFrom(old(Snapshot()), k, j) == OffloadFrom(Snapshot(), k, j + 1)
      ensures error.Some? ==> OffloadFrom(old(Snapshot()), k, j) == Err(error.value)
    {
      ghost var w := Snapshot();
      var elevator, passenger := elevators[k], passengers[j];
      if !Alights(passenger.Model(), elevator.Model()) {
        OffloadFromSkips(w, k, j);
        return None;
      }
      passenger.SetTimeExitedElevator(clock);
      elevator.RemoveFloorFromDestinationQueue();
      forall i | 0 <= i < |elevators| && i != k ensures unchanged(elevators[i]) {
        assert elevators[i] != elevator;
      }
      forall i | 0 <= i < |passengers| && i != j ensures unchanged(passengers[i]) {
        assert passengers[i] != passenger;
      }
      assert FleetOf(elevators) == old(FleetOf(elevators))[k := elevator.Model()];
      assert RidersOf(passengers) == old(RidersOf(passengers))[j := passenger.Model()];
      OffloadFromAlights(w, k, j, Snapshot());
      var time := passenger.Model().TimeToCompletion();
      if time.Err? {
        return Some(time.error);
      }
      var total := TotalCompletionTime(RidersOf(passengers));
      if total.Err? {
        return Some(total.error);
      }
      error := None;
    }

    /** `onboardPassengers` for elevator `k`: at a floor, each waiting passenger of the cab gets the entry time. */
    method OnboardPassengers(k: nat)
      requires Valid() && k < |elevators|
      modifies passengers
      ensures Snapshot() == Onboard(old(Snapshot()), k)
    {
      var elevator := elevators[k];
      if !elevator.Model().IsAtFloor() {
        return;
      }
      ghost var riders := RidersOf(passengers);
      ghost var boarded := Boarded(riders, elevator.Model(), clock);
      var j := 0;
      while j < |passengers|
        invariant j <= |passengers|
        invariant forall i :: 0 <= i < j ==> passengers[i].Model() == boarded[i]
        invariant forall i :: j <= i < |passengers| ==> passengers[i].Model() == riders[i]
      {
        var passenger := passengers[j];
        ghost var before := RidersOf(passengers);
        if Boards(passenger.Model(), elevator.Model()) {
          passenger.SetTimeEnteredElevator(clock);
        }
        forall i | 0 <= i < |passengers| && i != j ensures passengers[i].Model() == before[i] {
          assert passengers[i] != passenger;
        }
        j := j + 1;
      }
      assert RidersOf(passengers) == boarded;
    }

    /** The `forEach` over the fleet, in fleet order. */
    method ServeElevators() returns (error: Option<Failure>)
      requires Valid()
      modifies elevators, passengers
      ensures error.None? <==> ServeFrom(old(Snapshot()), 0).Ok?
      ensures error.None? ==> Snapshot() == ServeFrom(old(Snapshot()), 0).value
      ensures error.Some? ==> error.value == ServeFrom(old(Snapshot()), 0).error
    {
      ghost var target := ServeFrom(Snapshot(), 0);
      var k := 0;
      while k < |elevators|
        invariant k <= |elevators|
        invariant ServeFrom(Snapshot(), k) == target
      {
        error := ServeElevator(k);
        if error.Some? {
          return;
        }
        k := k + 1;
      }
      assert ServeFrom(Snapshot(), k) == Ok(Snapshot());
      error := None;
    }

    /**
     * The `forEach` body for elevator `k`: offload, onboard, then one tick;
     * the rest of the pass then goes on from the state it leaves.
     */
    method ServeElevator(k: nat) returns (error: Option<Failure>)
      requires Valid() && k < |elevators|
      modifies elevators[k], passengers
      ensures error.None? ==> ServeFrom(old(Snapshot()), k) == ServeFrom(Snapshot(), k + 1)
      ensures error.Some? ==> ServeFrom(old(Snapshot()), k) == Err(error.value)
    {
      ghost var w := Snapshot();
      error := OffloadPassengers(k);
      if error.Some? {
        ServeFromStops(w, k, error.value);
        return;
      }
      OnboardPassengers(k);
      ghost var w2 := Snapshot();
      TickElevator(k);
      assert Snapshot() == w2.(fleet := w2.fleet[k := w2.fleet[k].Tick()]);
      ServeFromStep(w, k, Snapshot());
    }

    /** One tick of elevator `k`; nothing else changes. */
    method TickElevator(k: nat)
      requires Valid() && k < |elevators|
      modifies elevators[k]
      ensures FleetOf(elevators) == old(FleetOf(elevators))[k := old(elevators[k].Model()).Tick()]
    {
      elevators[k].Tick();
      forall i | 0 <= i < |elevators| && i != k ensures unchanged(elevators[i]) {
        assert elevators[i] != elevators[k];
      }
    }

    /** One iteration of the `execute` loop; an error is the exception that ends the run. */
    method Iterate() returns (error: Option<Failure>)
      requires Valid()
      modifies this, elevators, passengers
      ensures fresh(set p | p in passengers && p !in old(passengers))
      ensures Valid()
      ensures error.None? <==> Step(rawRequests, old(Snapshot())).Ok?
      ensures error.None? ==> Snapshot() == Step(rawRequests, old(Snapshot())).value
      ensures error.Some? ==> error.value == Step(rawRequests, old(Snapshot())).error
    {
      ghost var w := Snapshot();
      IngestRequests();
      error := DispatchPending();
      if error.Some? {
        StepDispatchFails(rawRequests, w, error.value);
        return;
      }
      ghost var w2 := Snapshot();
      error := ServeElevators();
      if error.Some? {
        StepServeFails(rawRequests, w, w2, error.value);
        return;
      }
      ghost var w3 := Snapshot();
      ghost var fleet, riders := FleetOf(elevators), RidersOf(passengers);
      clock := clock + 1;
      assert FleetOf(elevators) == fleet && RidersOf(passengers) == riders;
      StepSucceeds(rawRequests, w, w2, w3);
    }

    /**
     * `execute`, with at most `fuel` iterations and the loop condition as
     * written: the outcome is the one of `Run(AsWritten, ...)`, and unless
     * the run crashed the state is the world it ends on.
     */
    method Execute(fuel: nat) returns (outcome: Outcome)
      requires Valid()
      modifies this, elevators, passengers
      ensures outcome == Run(AsWritten, rawRequests, old(Snapshot()), fuel).1
      ensures !outcome.Crashed? ==> Snapshot() == Run(AsWritten, rawRequests, old(Snapshot()), fuel).0
    {
      ghost var current := Snapshot();
      ghost var target := Run(AsWritten, rawRequests, current, fuel);
      var n := fuel;
      outcome := OutOfFuel;
      while n > 0
        invariant Valid()
        invariant current == Snapshot()
        invariant Run(AsWritten, rawRequests, current, n) == target
        invariant fresh(set p | p in passengers && p !in old(passengers))
        decreases n
      {
        n := n - 1;
        var ended;
        ended, current := Advance(n, current, target);
        if ended.Some? {
          return ended.value;
        }
      }
    }

    /**
     * One iteration of `execute` from the world `current`, on a run that
     * ends on `target`, followed by the loop test as written: `Some` of the outcome if
     * the run ends here, `None` if it goes on from the world `next`.
     */
    method Advance(ghost n: nat, ghost current: World, ghost target: (World, Outcome)) returns (ended: Option<Outcome>, ghost next: World)
      requires Valid() && current == Snapshot() && Run(AsWritten, rawRequests, current, n + 1) == target
      modifies this, elevators, passengers
      ensures fresh(set p | p in passengers && p !in old(passengers))
      ensures Valid() && next == Snapshot()
      ensures ended.Some? ==> ended.value == target.1 && (!ended.value.Crashed? ==> next == target.0)
      ensures ended.None? ==> Run(AsWritten, rawRequests, next, n) == target
    {
      var error := Iterate();
      next := Snapshot();
      if error.Some? {
        RunCrashes(AsWritten, rawRequests, current, error.value, n + 1);
        return Some(Crashed(error.value)), next;
      }
      if !StillRunningAsWritten(rawRequests, Snapshot()) {
        RunEndsAfter(AsWritten, rawRequests, current, next, n + 1);
        return Some(Finished), next;
      }
      RunGoesOn(AsWritten, rawRequests, current, next, n + 1);
      ended := None;
    }
  }
}
