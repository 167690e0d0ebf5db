/**
 * The controller's state at one moment, as a value: the fleet, the
 * passengers, the pending requests and the clock (tenths of a second).
 */
module Worlds {
  import opened Passengers
  import opened Elevators
  import opened Requests

  datatype World = World(fleet: seq<Cab>, riders: seq<Rider>, pending: seq<Request>, clock: nat)

  ghost predicate FleetValid(fleet: seq<Cab>) {
    forall i :: 0 <= i < |fleet| ==> fleet[i].Valid()
  }

  /** Two fleets of the same cabs: same size, and each cab keeps its id, shape and size. */
  ghost predicate SameCabs(a: seq<Cab>, b: seq<Cab>) {
    && |a| == |b|
    && forall i :: 0 <= i < |a| ==>
         a[i].id == b[i].id && a[i].height == b[i].height && a[i].totalFloors == b[i].totalFloors
  }

  /**
   * A passenger record can only progress: its request data is fixed and a
   * timestamp, once set, is never changed.
   */
  ghost predicate RiderProgresses(a: Rider, b: Rider) {
    && b.requested == a.requested && b.origin == a.origin
    && b.destination == a.destination && b.elevatorId == a.elevatorId
    && (a.entered.Some? ==> b.entered == a.entered)
    && (a.exited.Some? ==> b.exited == a.exited)
  }

  /** The passenger list only grows, and each passenger only progresses. */
  ghost predicate RidersProgress(a: seq<Rider>, b: seq<Rider>) {
    |a| <= |b| && forall i :: 0 <= i < |a| ==> RiderProgresses(a[i], b[i])
  }

  lemma RidersProgressTransitive(a: seq<Rider>, b: seq<Rider>, c: seq<Rider>)
    requires RidersProgress(a, b) && RidersProgress(b, c)
    ensures RidersProgress(a, c)
  {
    forall i | 0 <= i < |a| ensures RiderProgresses(a[i], c[i]) {
      assert RiderProgresses(a[i], b[i]) && RiderProgresses(b[i], c[i]);
    }
  }

  /**
   * The timestamps of a record are consistent with a clock that has reached
   * `now`: nothing lies in the future, nothing happens before the request,
   * an exit time is never 0, and a passenger who entered did not leave earlier.
   */
  ghost predicate RiderTimely(r: Rider, now: int) {
    && 0 <= r.requested <= now
    && (r.entered.Some? ==> r.requested <= r.entered.value <= now)
    && (r.exited.Some? ==> r.requested <= r.exited.value <= now && r.exited.value > 0)
    && (r.entered.Some? && r.exited.Some? ==> r.entered.value <= r.exited.value)
  }

  /** Every record and every pending request is consistent with time `now`. */
  ghost predicate Timely(w: World, now: int) {
    && (forall i :: 0 <= i < |w.riders| ==> RiderTimely(w.riders[i], now))
    && (forall i :: 0 <= i < |w.pending| ==> 0 <= w.pending[i].time * 10 <= now)
  }

  lemma TimelyLater(w: World, now: int, later: int)
    requires Timely(w, now) && now <= later
    ensures Timely(w, later)
  {
    forall i | 0 <= i < |w.riders| ensures RiderTimely(w.riders[i], later) {
      assert RiderTimely(w.riders[i], now);
    }
  }

  /** The completion and in-cab times of a timely record are defined once it has exited, and never negative. */
  lemma TimelyDurations(r: Rider, now: int)
    requires RiderTimely(r, now) && r.HasCompleted()
    ensures r.TimeToCompletion().Ok? && r.TimeToCompletion().value >= 0
    ensures r.HasEntered() && r.entered.value != 0 ==> r.TimeInElevator().Ok? && r.TimeInElevator().value >= 0
  {
  }
}
