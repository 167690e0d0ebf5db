/**
 * Passengers leaving and entering a cab that stands exactly at a floor.
 */
module Boarding {
  import opened Common
  import opened Passengers
  import opened Elevators
  import opened Worlds

  /**
   * A passenger of this cab whose destination is the cab's floor and who has
   * not completed the journey. Having boarded is not required.
   */
  predicate Alights(r: Rider, c: Cab) {
    r.elevatorId == c.id && r.destination == c.Floor() && !r.HasCompleted()
  }

  /** A passenger of this cab waiting at the cab's floor: neither entered nor completed. */
  predicate Boards(r: Rider, c: Cab) {
    r.elevatorId == c.id && r.origin == c.Floor() && !r.HasEntered() && !r.HasCompleted()
  }

  /** No completed passenger has the exit time 0, which the duration getter reads as missing. */
  ghost predicate NoZeroExit(rs: seq<Rider>) {
    forall i :: 0 <= i < |rs| && rs[i].HasCompleted() ==> rs[i].exited.value != 0
  }

  /**
   * The total completion time of the completed passengers, in tenths of a
   * second; the journey getter fails on an exit time of 0.
   */
  function TotalCompletionTime(rs: seq<Rider>): (r: Result<int>)
    ensures r.Ok? <==> NoZeroExit(rs)
    ensures r.Err? ==> r.error == NotYetExited
  {
    if rs == [] then Ok(0)
    else
      var rest := TotalCompletionTime(rs[1..]);
      assert NoZeroExit(rs) <==> (rs[0].HasCompleted() ==> rs[0].exited.value != 0) && NoZeroExit(rs[1..]) by {
        assert forall i :: 0 < i < |rs| ==> rs[i] == rs[1..][i - 1];
      }
      if !rs[0].HasCompleted() then rest
      else
        match rs[0].TimeToCompletion()
        case Err(e) => Err(e)
        case Ok(t) => if rest.Err? then rest else Ok(t + rest.value)
  }

  /**
   * The `forEach` over the alighting passengers, from index `j` on: each
   * gets the exit time, the cab drops its current floor from the queue, and
   * the arrival message reads the passenger's completion time and the total,
   * either of which fails on an exit time of 0.
   */
  function OffloadFrom(w: World, k: nat, j: nat): (r: Result<World>)
    requires k < |w.fleet| && j <= |w.riders|
    ensures r.Ok? ==> |r.value.fleet| == |w.fleet| && |r.value.riders| == |w.riders|
    decreases |w.riders| - j
  {
    if j == |w.riders| then Ok(w)
    else if Alights(w.riders[j], w.fleet[k]) then
      var r := w.riders[j].(exited := Some(w.clock));
      var w1 := w.(riders := w.riders[j := r], fleet := w.fleet[k := w.fleet[k].RemoveCurrentFloor()]);
      if r.TimeToCompletion().Err? then Err(r.TimeToCompletion().error)
      else if TotalCompletionTime(w1.riders).Err? then Err(TotalCompletionTime(w1.riders).error)
      else OffloadFrom(w1, k, j + 1)
    else OffloadFrom(w, k, j + 1)
  }

  /** `offLoadPassengers`: nothing happens unless the cab is exactly at a floor. */
  function Offload(w: World, k: nat): (r: Result<World>)
    requires k < |w.fleet|
    ensures r.Ok? ==> |r.value.fleet| == |w.fleet| && |r.value.riders| == |w.riders|
  {
    if !w.fleet[k].IsAtFloor() then Ok(w) else OffloadFrom(w, k, 0)
  }

  /** The records after the alighting passengers of `c`, chosen before any change, get exit time `clock`. */
  function Alighted(rs: seq<Rider>, c: Cab, clock: nat): (r: seq<Rider>)
    ensures |r| == |rs|
    ensures forall i :: 0 <= i < |rs| ==>
      r[i] == if Alights(rs[i], c) then rs[i].(exited := Some(clock)) else rs[i]
  {
    seq(|rs|, i requires 0 <= i < |rs| => if Alights(rs[i], c) then rs[i].(exited := Some(clock)) else rs[i])
  }

  predicate AnyAlights(rs: seq<Rider>, c: Cab) {
    exists i :: 0 <= i < |rs| && Alights(rs[i], c)
  }

  /** A cab with its current floor dropped from the queue has the same passengers alighting and boarding. */
  lemma SamePlatform(r: Rider, c: Cab)
    ensures Alights(r, c.RemoveCurrentFloor()) == Alights(r, c)
    ensures Boards(r, c.RemoveCurrentFloor()) == Boards(r, c)
  {
  }

  lemma AlightedCons(rs: seq<Rider>, c: Cab, clock: nat)
    requires rs != []
    ensures Alighted(rs, c, clock) == Alighted(rs[..1], c, clock) + Alighted(rs[1..], c, clock)
    ensures AnyAlights(rs, c) <==> Alights(rs[0], c) || AnyAlights(rs[1..], c)
  {
    if AnyAlights(rs, c) && !Alights(rs[0], c) {
      var i :| 0 <= i < |rs| && Alights(rs[i], c);
      assert rs[1..][i - 1] == rs[i];
    }
    if AnyAlights(rs[1..], c) {
      var i :| 0 <= i < |rs[1..]| && Alights(rs[1..][i], c);
      assert rs[i + 1] == rs[1..][i];
    }
  }

  lemma AlightedSamePlatform(rs: seq<Rider>, c: Cab, clock: nat)
    ensures Alighted(rs, c.RemoveCurrentFloor(), clock) == Alighted(rs, c, clock)
    ensures AnyAlights(rs, c.RemoveCurrentFloor()) == AnyAlights(rs, c)
  {
    if AnyAlights(rs, c) {
      var i :| 0 <= i < |rs| && Alights(rs[i], c);
      SamePlatform(rs[i], c);
    }
    if AnyAlights(rs, c.RemoveCurrentFloor()) {
      var i :| 0 <= i < |rs| && Alights(rs[i], c.RemoveCurrentFloor());
      SamePlatform(rs[i], c);
    }
  }

  /**
   * The loop from `j` on, when it completes: exactly the passengers at
   * `j` and after that alight at the cab (as it was when the loop reached
   * `j`) get the exit time; the cab drops its floor once if any did.
   */
  lemma {:induction false} OffloadFromSpec(w: World, k: nat, j: nat)
    requires k < |w.fleet| && j <= |w.riders| && OffloadFrom(w, k, j).Ok?
    ensures var w', c := OffloadFrom(w, k, j).value, w.fleet[k];
      && w'.riders == w.riders[..j] + Alighted(w.riders[j..], c, w.clock)
      && w'.fleet == (if AnyAlights(w.riders[j..], c) then w.fleet[k := c.RemoveCurrentFloor()] else w.fleet)
      && w'.pending == w.pending && w'.clock == w.clock
    decreases |w.riders| - j
  {
    var c := w.fleet[k];
    if j == |w.riders| {
      assert w.riders[..j] == w.riders;
      assert !AnyAlights(w.riders[j..], c);
    } else {
      var tail := w.riders[j..];
      AlightedCons(tail, c, w.clock);
      assert tail[..1] == [w.riders[j]] && tail[1..] == w.riders[j + 1..];
      var w' := OffloadFrom(w, k, j).value;
      if Alights(w.riders[j], c) {
        var r := w.riders[j].(exited := Some(w.clock));
        var w1 := w.(riders := w.riders[j := r], fleet := w.fleet[k := c.RemoveCurrentFloor()]);
        assert w' == OffloadFrom(w1, k, j + 1).value;
        OffloadFromSpec(w1, k, j + 1);
        c.RemoveCurrentFloorTwice();
        AlightedSamePlatform(w.riders[j + 1..], c, w.clock);
        assert Alighted([w.riders[j]], c, w.clock) == [r];
        SpliceStep(w.riders, r, j, Alighted(w.riders[j + 1..], c, w.clock));
      } else {
        assert w' == OffloadFrom(w, k, j + 1).value;
        OffloadFromSpec(w, k, j + 1);
        assert Alighted([w.riders[j]], c, w.clock) == [w.riders[j]];
        SpliceStep(w.riders, w.riders[j], j, Alighted(w.riders[j + 1..], c, w.clock));
        assert w.riders[j := w.riders[j]] == w.riders;
      }
    }
  }

  /** The loop body for a passenger at `j` who does not alight. */
  lemma OffloadFromSkips(w: World, k: nat, j: nat)
    requires k < |w.fleet| && j < |w.riders| && !Alights(w.riders[j], w.fleet[k])
    ensures OffloadFrom(w, k, j) == OffloadFrom(w, k, j + 1)
  {
  }

  /**
   * The loop body for a passenger at `j` who alights, given the world `w1`
   * after the exit time is set and the cab has dropped its floor.
   */
  lemma OffloadFromAlights(w: World, k: nat, j: nat, w1: World)
    requires k < |w.fleet| && j < |w.riders| && Alights(w.riders[j], w.fleet[k])
    requires w1 == w.(riders := w.riders[j := w.riders[j].(exited := Some(w.clock))], fleet := w.fleet[k := w.fleet[k].RemoveCurrentFloor()])
    ensures w1.riders[j].TimeToCompletion().Err? ==> OffloadFrom(w, k, j) == Err(w1.riders[j].TimeToCompletion().error)
    ensures w1.riders[j].TimeToCompletion().Ok? && TotalCompletionTime(w1.riders).Err? ==>
      OffloadFrom(w, k, j) == Err(TotalCompletionTime(w1.riders).error)
    ensures w1.riders[j].TimeToCompletion().Ok? && TotalCompletionTime(w1.riders).Ok? ==>
      OffloadFrom(w, k, j) == OffloadFrom(w1, k, j + 1)
  {
  }

  /** Replacing entry `j`, then keeping the prefix up to it, is the old prefix followed by the new entry. */
  lemma SpliceStep(rs: seq<Rider>, r: Rider, j: nat, rest: seq<Rider>)
    requires j < |rs|
    ensures rs[j := r][j + 1..] == rs[j + 1..]
    ensures rs[j := r][..j + 1] + rest == rs[..j] + ([r] + rest)
  {
    assert rs[j := r][..j + 1] == rs[..j] + [r];
  }

  /**
   * Offloading, when it completes: if the cab is exactly at a floor, the
   * alighting passengers (chosen before any change) get the exit time `clock`
   * and every other record is untouched; the cab drops its current floor
   * from the queue if anyone alighted. Pending requests and clock stay.
   */
  lemma OffloadSpec(w: World, k: nat)
    requires k < |w.fleet| && Offload(w, k).Ok?
    ensures var w', c := Offload(w, k).value, w.fleet[k];
      && |w'.riders| == |w.riders|
      && (forall i :: 0 <= i < |w.riders| ==>
            w'.riders[i] == if c.IsAtFloor() && Alights(w.riders[i], c) then w.riders[i].(exited := Some(w.clock)) else w.riders[i])
      && w'.fleet == (if c.IsAtFloor() && AnyAlights(w.riders, c) then w.fleet[k := c.RemoveCurrentFloor()] else w.fleet)
      && w'.pending == w.pending && w'.clock == w.clock
  {
    if w.fleet[k].IsAtFloor() {
      OffloadFromSpec(w, k, 0);
      assert w.riders[..0] + Alighted(w.riders[0..], w.fleet[k], w.clock) == Alighted(w.riders, w.fleet[k], w.clock);
    }
  }

  /**
   * With a clock past 0 and no exit time of 0 recorded, the loop always
   * completes; at clock 0 it fails as soon as anyone alights.
   */
  lemma {:induction false} OffloadFromFails(w: World, k: nat, j: nat)
    requires k < |w.fleet| && j <= |w.riders| && NoZeroExit(w.riders)
    ensures OffloadFrom(w, k, j).Err? <==> w.clock == 0 && AnyAlights(w.riders[j..], w.fleet[k])
    decreases |w.riders| - j
  {
    var c := w.fleet[k];
    if j < |w.riders| {
      var tail := w.riders[j..];
      assert tail[0] == w.riders[j];
      if Alights(w.riders[j], c) {
        var r := w.riders[j].(exited := Some(w.clock));
        var w1 := w.(riders := w.riders[j := r], fleet := w.fleet[k := c.RemoveCurrentFloor()]);
        assert AnyAlights(tail, c);
        if w.clock != 0 {
          assert NoZeroExit(w1.riders);
          OffloadFromFails(w1, k, j + 1);
          assert w1.riders[j + 1..] == w.riders[j + 1..];
        }
      } else {
        OffloadFromFails(w, k, j + 1);
        if AnyAlights(tail, c) {
          var i :| 0 <= i < |tail| && Alights(tail[i], c);
          assert Alights(w.riders[j + 1..][i - 1], c);
        }
        if AnyAlights(w.riders[j + 1..], c) {
          var i :| 0 <= i < |w.riders[j + 1..]| && Alights(w.riders[j + 1..][i], c);
          assert tail[i + 1] == w.riders[j + 1..][i];
        }
      }
    } else {
      assert !AnyAlights(w.riders[j..], c);
    }
  }

  /**
   * Offloading fails exactly when the cab is at a floor, someone alights and
   * the clock is still 0: the exit time 0 then reads as missing.
   */
  lemma OffloadFails(w: World, k: nat)
    requires k < |w.fleet| && NoZeroExit(w.riders)
    ensures Offload(w, k).Err? <==> w.fleet[k].IsAtFloor() && w.clock == 0 && AnyAlights(w.riders, w.fleet[k])
    ensures Offload(w, k).Err? ==> Offload(w, k).error == NotYetExited
  {
    if w.fleet[k].IsAtFloor() {
      OffloadFromFails(w, k, 0);
      assert w.riders[0..] == w.riders;
      OffloadFromError(w, k, 0);
    }
  }

  lemma {:induction false} OffloadFromError(w: World, k: nat, j: nat)
    requires k < |w.fleet| && j <= |w.riders|
    ensures OffloadFrom(w, k, j).Err? ==> OffloadFrom(w, k, j).error == NotYetExited
    decreases |w.riders| - j
  {
    if j < |w.riders| {
      if Alights(w.riders[j], w.fleet[k]) {
        var r := w.riders[j].(exited := Some(w.clock));
        var w1 := w.(riders := w.riders[j := r], fleet := w.fleet[k := w.fleet[k].RemoveCurrentFloor()]);
        OffloadFromError(w1, k, j + 1);
      } else {
        OffloadFromError(w, k, j + 1);
      }
    }
  }

  /** The records after the boarding passengers of `c` get entry time `clock`. */
  function Boarded(rs: seq<Rider>, c: Cab, clock: nat): (r: seq<Rider>)
    ensures |r| == |rs|
    ensures forall i :: 0 <= i < |rs| ==>
      r[i] == if Boards(rs[i], c) then rs[i].(entered := Some(clock)) else rs[i]
  {
    seq(|rs|, i requires 0 <= i < |rs| => if Boards(rs[i], c) then rs[i].(entered := Some(clock)) else rs[i])
  }

  /**
   * `onboardPassengers`: at a floor, the waiting passengers of the cab (chosen
   * before any change) get the entry time; nothing else changes.
   */
  function Onboard(w: World, k: nat): World
    requires k < |w.fleet|
  {
    if !w.fleet[k].IsAtFloor() then w
    else w.(riders := Boarded(w.riders, w.fleet[k], w.clock))
  }

  /** Offloading keeps the records timely and lets them only progress; the cab stays valid. */
  lemma OffloadTimely(w: World, k: nat)
    requires k < |w.fleet| && Offload(w, k).Ok? && Timely(w, w.clock) && FleetValid(w.fleet)
    ensures Timely(Offload(w, k).value, w.clock)
    ensures RidersProgress(w.riders, Offload(w, k).value.riders)
    ensures FleetValid(Offload(w, k).value.fleet) && SameCabs(w.fleet, Offload(w, k).value.fleet)
    ensures NoZeroExit(Offload(w, k).value.riders)
  {
    var w' := Offload(w, k).value;
    var c := w.fleet[k];
    OffloadSpec(w, k);
    if c.IsAtFloor() && AnyAlights(w.riders, c) {
      var i :| 0 <= i < |w.riders| && Alights(w.riders[i], c);
      assert w'.riders[i].exited == Some(w.clock);
      assert w.clock != 0 by {
        OffloadFails(w, k);
      }
    }
    forall i | 0 <= i < |w'.riders| ensures RiderTimely(w'.riders[i], w.clock) && RiderProgresses(w.riders[i], w'.riders[i]) {
      assert RiderTimely(w.riders[i], w.clock);
      if c.IsAtFloor() && Alights(w.riders[i], c) {
        assert w.clock != 0 by {
          OffloadFails(w, k);
        }
      }
    }
  }

  /** Onboarding keeps the records timely and lets them only progress. */
  lemma OnboardTimely(w: World, k: nat)
    requires k < |w.fleet| && Timely(w, w.clock)
    ensures Timely(Onboard(w, k), w.clock)
    ensures RidersProgress(w.riders, Onboard(w, k).riders)
    ensures NoZeroExit(w.riders) ==> NoZeroExit(Onboard(w, k).riders)
    ensures Onboard(w, k).fleet == w.fleet && Onboard(w, k).pending == w.pending && Onboard(w, k).clock == w.clock
  {
    var w' := Onboard(w, k);
    forall i | 0 <= i < |w'.riders| ensures RiderTimely(w'.riders[i], w.clock) && RiderProgresses(w.riders[i], w'.riders[i]) {
      assert RiderTimely(w.riders[i], w.clock);
    }
  }
}
