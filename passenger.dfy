/**
 * The passenger lifecycle record: requested, assigned to an elevator,
 * entered, exited. Times are in tenths of a second.
 */
module Passengers {
  import opened Common

  /** The value of a passenger record at one moment. */
  datatype Rider = Rider(
    requested: int,
    origin: int,
    destination: int,
    elevatorId: int,
    entered: Option<int>,
    exited: Option<int>)
  {
    predicate HasEntered() {
      entered.Some?
    }

    predicate HasCompleted() {
      exited.Some?
    }

    /** Exit time minus request time; a missing exit time, or one of 0, is an error. */
    function TimeToCompletion(): (r: Result<int>)
      ensures r.Ok? <==> HasCompleted() && exited.value != 0
      ensures r.Err? ==> r.error == NotYetExited
      ensures r.Ok? ==> requested + r.value == exited.value
    {
      if Falsy(exited) then Err(NotYetExited) else Ok(exited.value - requested)
    }

    /**
     * Exit time minus entry time. The entry time is checked first, so a rider
     * with neither time fails with NotYetEntered.
     */
    function TimeInElevator(): (r: Result<int>)
      ensures r.Ok? <==> HasEntered() && entered.value != 0 && HasCompleted() && exited.value != 0
      ensures (!HasEntered() || entered.value == 0) ==> r == Err(NotYetEntered)
      ensures HasEntered() && entered.value != 0 && (!HasCompleted() || exited.value == 0) ==> r == Err(NotYetExited)
      ensures r.Ok? ==> entered.value + r.value == exited.value
    {
      if Falsy(entered) then Err(NotYetEntered)
      else if Falsy(exited) then Err(NotYetExited)
      else Ok(exited.value - entered.value)
    }
  }

  /** JavaScript's `!t` on an optional number: absent and 0 are both falsy. */
  predicate Falsy(t: Option<int>) {
    t.None? || t.value == 0
  }

  /** The record a new passenger starts with. */
  function NewRider(requested: int, origin: int, destination: int, elevatorId: int): (r: Rider)
    ensures !r.HasEntered() && !r.HasCompleted()
    ensures r.requested == requested && r.origin == origin
    ensures r.destination == destination && r.elevatorId == elevatorId
  {
    Rider(requested, origin, destination, elevatorId, None, None)
  }

  /** The two lifecycle fields are the only ones that change; they change in place. */
  class Passenger {
    const timeRequested: int
    const originFloor: int
    const destinationFloor: int
    const elevatorId: int
    var timeEnteredElevator: Option<int>
    var timeExitedElevator: Option<int>

    function Model(): Rider
      reads this
    {
      Rider(timeRequested, originFloor, destinationFloor, elevatorId, timeEnteredElevator, timeExitedElevator)
    }

    constructor (timeRequested: int, originFloor: int, destinationFloor: int, elevatorId: int)
      ensures Model() == NewRider(timeRequested, originFloor, destinationFloor, elevatorId)
    {
      this.timeRequested := timeRequested;
      this.originFloor := originFloor;
      this.destinationFloor := destinationFloor;
      this.elevatorId := elevatorId;
      timeEnteredElevator := None;
      timeExitedElevator := None;
    }

    /** Sets the entry time, whatever the lifecycle state. */
    method SetTimeEnteredElevator(t: int)
      modifies this
      ensures Model() == old(Model()).(entered := Some(t))
      ensures Model().HasEntered()
    {
      timeEnteredElevator := Some(t);
    }

    /** Sets the exit time, whatever the lifecycle state (entry is not required). */
    method SetTimeExitedElevator(t: int)
      modifies this
      ensures Model() == old(Model()).(exited := Some(t))
      ensures Model().HasCompleted()
    {
      timeExitedElevator := Some(t);
    }
  }

  /** The worked values of the passenger tests, including both failure orders. */
  lemma DurationExamples()
    ensures NewRider(10, 1, 5, 2) == Rider(10, 1, 5, 2, None, None)
    ensures Rider(100, 0, 10, 1, Some(200), Some(500)).TimeToCompletion() == Ok(400)
    ensures Rider(100, 0, 10, 1, Some(200), Some(500)).TimeInElevator() == Ok(300)
    ensures NewRider(100, 0, 10, 1).TimeToCompletion() == Err(NotYetExited)
    ensures Rider(100, 0, 10, 1, Some(200), None).TimeInElevator() == Err(NotYetExited)
    ensures NewRider(100, 0, 10, 1).TimeInElevator() == Err(NotYetEntered)
  {
  }

  /** A completed record whose times are 0 still fails both duration queries. */
  lemma ZeroTimeCountsAsMissing(r: Rider)
    requires r.entered == Some(0) && r.exited == Some(0)
    ensures r.HasEntered() && r.HasCompleted()
    ensures r.TimeToCompletion() == Err(NotYetExited)
    ensures r.TimeInElevator() == Err(NotYetEntered)
  {
  }
}
