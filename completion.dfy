/**
 * What the loop as written guarantees about journeys when it finishes.
 * Between iterations, the cab of every unfinished passenger still owes a
 * stop at the destination, and at the origin until the passenger boards:
 * the floor is queued, or the cab stands exactly there. The loop as written
 * can therefore only stop with an unfinished passenger who never boarded and
 * whose origin and destination coincide.
 */
module Completion {
  import opened Common
  import opened Queues
  import opened Passengers
  import opened Elevators
  import opened Requests
  import opened Worlds
  import opened Dispatch
  import opened Boarding
  import opened Simulation

  /** Cab `c` will stop at floor `f`: the floor is queued, or the cab stands exactly there. */
  predicate Awaits(c: Cab, f: int) {
    f in c.queue || (c.IsAtFloor() && c.Floor() == f)
  }

  /** What a cab still owes its passenger: the destination until the journey ends, the origin until boarding. */
  predicate Owes(c: Cab, r: Rider) {
    !r.HasCompleted() ==> Awaits(c, r.destination) && (!r.HasEntered() ==> Awaits(c, r.origin))
  }

  /** A cab with nothing queued stands exactly at a floor. */
  predicate Settled(c: Cab) {
    c.queue == [] ==> c.IsAtFloor()
  }

  /** Some cab of the fleet carries the passenger's elevator id and owes the passenger its stops. */
  ghost predicate Assigned(fleet: seq<Cab>, r: Rider) {
    exists k :: 0 <= k < |fleet| && fleet[k].id == r.elevatorId && Owes(fleet[k], r)
  }

  /** Every cab is settled and every passenger is owed its stops by a cab of the fleet. */
  ghost predicate Tracked(w: World) {
    && (forall k :: 0 <= k < |w.fleet| ==> Settled(w.fleet[k]))
    && (forall i :: 0 <= i < |w.riders| ==> Assigned(w.fleet, w.riders[i]))
  }

  /** Exactly at a floor, the floor seen does not depend on the direction. */
  lemma FloorAtFloor(c: Cab, d: Direction)
    requires c.IsAtFloor()
    ensures c.(dir := d).Floor() == c.Floor() == c.elevation / c.height
  {
    CeilDiv(c.elevation, c.height);
  }

  /** Exactly at a floor, two cabs at the same elevation with the same floor height see the same floor. */
  lemma FloorSeenAlike(a: Cab, b: Cab)
    requires a.IsAtFloor() && b.elevation == a.elevation && b.height == a.height
    ensures b.IsAtFloor() && b.Floor() == a.Floor()
  {
    FloorAtFloor(a, a.dir);
    FloorAtFloor(b, b.dir);
  }

  /** A queued floor is still awaited after a tick: it stays queued, or the cab has just landed exactly there. */
  lemma TickAwaits(c: Cab, f: int)
    requires f in c.queue
    ensures Awaits(c.Tick(), f)
  {
    if c.hold == 0 {
      var t := c.Tick();
      TickMoves(c);
      if f !in t.queue {
        var landed := c.(elevation := c.Moved());
        assert landed.IsAtDestination() && f == landed.Floor();
        FloorSeenAlike(landed, t);
      }
    }
  }

  /** A tick keeps a cab settled: it only empties its queue on landing at a floor. */
  lemma TickSettled(c: Cab)
    requires Settled(c)
    ensures Settled(c.Tick())
  {
    if c.hold == 0 && c.queue != [] {
      TickMoves(c);
    }
  }

  /**
   * Adding a floor to a valid, settled cab: the floor is awaited afterwards,
   * every floor awaited before still is, and the cab stays settled.
   */
  lemma AddFloorAwaits(c: Cab, f: int, x: int)
    requires c.Valid() && Settled(c) && c.AddFloor(f).Ok?
    ensures Awaits(c.AddFloor(f).value, f)
    ensures Awaits(c, x) ==> Awaits(c.AddFloor(f).value, x)
    ensures Settled(c.AddFloor(f).value)
  {
    var c1 := c.AddFloor(f).value;
    c.AddFloorKeeps(f);
    if f !in c.queue && !(c.Floor() == f && (c.hold > 0 || c.IsIdle())) {
      c.AddFloorFails(f);
      c.AddFloorQueues(f);
    }
    if c.IsAtFloor() {
      FloorAtFloor(c, c1.dir);
      assert c1 == c.(queue := c1.queue, dir := c1.dir);
    }
  }

  /** The chosen cab after taking a request: settled, with both of the request's floors awaited. */
  lemma AssignAwaits(c: Cab, q: Request)
    requires c.Valid() && Settled(c) && Assign(c, q).Ok?
    ensures var c2 := Assign(c, q).value;
      && Settled(c2) && c2.id == c.id
      && Awaits(c2, q.origin) && Awaits(c2, q.destination)
  {
    var c1 := c.AddFloor(q.origin).value;
    AddFloorAwaits(c, q.origin, q.origin);
    c.AddFloorValid(q.origin);
    c.AddFloorKeeps(q.origin);
    AddFloorAwaits(c1, q.destination, q.origin);
    c1.AddFloorKeeps(q.destination);
  }

  /** Taking a request keeps every stop the cab already owed. */
  lemma AssignKeeps(c: Cab, q: Request, r: Rider)
    requires c.Valid() && Settled(c) && Assign(c, q).Ok? && Owes(c, r)
    ensures Owes(Assign(c, q).value, r)
  {
    var c1 := c.AddFloor(q.origin).value;
    AddFloorAwaits(c, q.origin, r.origin);
    AddFloorAwaits(c, q.origin, r.destination);
    c.AddFloorValid(q.origin);
    AddFloorAwaits(c1, q.destination, r.origin);
    AddFloorAwaits(c1, q.destination, r.destination);
  }

  /** A record that only progressed is owed no more than before. */
  lemma OwesProgress(c: Cab, r: Rider, r': Rider)
    requires Owes(c, r) && RiderProgresses(r, r')
    ensures Owes(c, r')
  {
  }

  /** One dispatch attempt keeps the fleet tracking every passenger, the new one included. */
  lemma TryDispatchTracked(w: World, i: nat)
    requires i < |w.pending| && TryDispatch(w, i).Ok? && FleetValid(w.fleet) && Tracked(w)
    ensures Tracked(TryDispatch(w, i).value)
  {
    var q := w.pending[i];
    if Quickest(w.fleet, q).Some? {
      var k := Quickest(w.fleet, q).value;
      var c := Assign(w.fleet[k], q).value;
      TryDispatchWith(w, i, k, c);
      var w' := TryDispatch(w, i).value;
      assert w.fleet[k].Valid();
      AssignAwaits(w.fleet[k], q);
      forall j | 0 <= j < |w'.fleet| ensures Settled(w'.fleet[j]) {
      }
      forall n | 0 <= n < |w'.riders| ensures Assigned(w'.fleet, w'.riders[n]) {
        if n < |w.riders| {
          var r := w.riders[n];
          assert Assigned(w.fleet, r);
          var m :| 0 <= m < |w.fleet| && w.fleet[m].id == r.elevatorId && Owes(w.fleet[m], r);
          if m == k {
            AssignKeeps(w.fleet[k], q, r);
          }
          assert w'.riders[n] == r;
          assert w'.fleet[m].id == r.elevatorId && Owes(w'.fleet[m], r);
        } else {
          assert w'.fleet[k].id == w'.riders[n].elevatorId && Owes(w'.fleet[k], w'.riders[n]);
        }
      }
    }
  }

  /** So does the backward pass. */
  lemma {:induction false} DispatchDownTracked(w: World, n: nat)
    requires n <= |w.pending| && DispatchDown(w, n).Ok? && FleetValid(w.fleet) && Tracked(w)
    ensures Tracked(DispatchDown(w, n).value)
    decreases n
  {
    if n > 0 {
      var w1 := TryDispatch(w, n - 1).value;
      DispatchDownStep(w, n - 1, w1);
      TryDispatchTracked(w, n - 1);
      TryDispatchValid(w, n - 1);
      DispatchDownTracked(w1, n - 1);
    }
  }

  /**
   * After offloading and onboarding at cab `c` (which became `c1`), a
   * passenger of that cab who is still unfinished has the destination
   * queued, and the origin too unless boarded: the floor where the cab
   * stands has been served.
   */
  lemma ServedOwes(c: Cab, c1: Cab, r: Rider, clock: nat)
    requires Owes(c, r) && c.id == r.elevatorId
    requires c1 == c || (c.IsAtFloor() && c1 == c.RemoveCurrentFloor())
    ensures var r1 := if c.IsAtFloor() && Alights(r, c) then r.(exited := Some(clock)) else r;
      var r2 := if c1.IsAtFloor() && Boards(r1, c1) then r1.(entered := Some(clock)) else r1;
      !r2.HasCompleted() ==>
        r2.destination in c1.queue && (!r2.HasEntered() ==> r2.origin in c1.queue)
  {
  }

  /** Serving one cab keeps the fleet tracking every passenger. */
  lemma ServeOneTracked(w: World, k: nat)
    requires k < |w.fleet| && ServeOne(w, k).Ok? && Tracked(w)
    ensures Tracked(ServeOne(w, k).value)
  {
    var c := w.fleet[k];
    OffloadSpec(w, k);
    var w1 := Offload(w, k).value;
    var c1 := w1.fleet[k];
    var w2 := Onboard(w1, k);
    var w3 := ServeOne(w, k).value;
    assert w3 == w2.(fleet := w2.fleet[k := c1.Tick()]);
    assert w2.fleet == w1.fleet;
    assert c1 == c || (c.IsAtFloor() && c1 == c.RemoveCurrentFloor());
    TickSettled(c1);
    forall j | 0 <= j < |w3.fleet| ensures Settled(w3.fleet[j]) {
    }
    forall n | 0 <= n < |w3.riders| ensures Assigned(w3.fleet, w3.riders[n]) {
      var r := w.riders[n];
      assert Assigned(w.fleet, r);
      var m :| 0 <= m < |w.fleet| && w.fleet[m].id == r.elevatorId && Owes(w.fleet[m], r);
      var r1 := w1.riders[n];
      assert r1 == if c.IsAtFloor() && Alights(r, c) then r.(exited := Some(w.clock)) else r;
      var r2 := w3.riders[n];
      assert r2 == if c1.IsAtFloor() && Boards(r1, c1) then r1.(entered := Some(w.clock)) else r1;
      if m == k {
        ServedOwes(c, c1, r, w.clock);
        if !r2.HasCompleted() {
          TickAwaits(c1, r2.destination);
          if !r2.HasEntered() {
            TickAwaits(c1, r2.origin);
          }
        }
      } else {
        OwesProgress(w.fleet[m], r, r2);
      }
      assert w3.fleet[m].id == r2.elevatorId && Owes(w3.fleet[m], r2);
    }
  }

  /** So does the pass over the fleet. */
  lemma {:induction false} ServeFromTracked(w: World, k: nat)
    requires k <= |w.fleet| && ServeFrom(w, k).Ok? && Tracked(w)
    ensures Tracked(ServeFrom(w, k).value)
    decreases |w.fleet| - k
  {
    if k < |w.fleet| {
      var w1 := ServeOne(w, k).value;
      ServeFromStep(w, k, w1);
      ServeOneTracked(w, k);
      ServeFromTracked(w1, k + 1);
    }
  }

  /** One iteration keeps the fleet tracking every passenger. */
  lemma StepTracked(raw: seq<Request>, w: World)
    requires FleetValid(w.fleet) && Tracked(w) && Step(raw, w).Ok?
    ensures Tracked(Step(raw, w).value)
  {
    var w1 := Ingest(raw, w);
    assert w1.fleet == w.fleet && w1.riders == w.riders;
    var w2 := DispatchAll(w1).value;
    DispatchDownTracked(w1, |w1.pending|);
    var w3 := ServeFrom(w2, 0).value;
    ServeFromTracked(w2, 0);
    assert Step(raw, w).value == w3.(clock := w3.clock + 1);
  }

  /** A run, whatever its loop test and outcome, keeps the invariant and the tracking. */
  lemma RunTracked(test: LoopTest, raw: seq<Request>, w: World, fuel: nat)
    requires Consistent(raw, w) && Tracked(w)
    ensures Consistent(raw, Run(test, raw, w, fuel).0) && Tracked(Run(test, raw, w, fuel).0)
  {
    var P := (x: World) => Consistent(raw, x) && Tracked(x);
    forall x | P(x) && Step(raw, x).Ok? ensures P(Step(raw, x).value) {
      StepConsistent(raw, x);
      StepTracked(raw, x);
    }
    RunKeeps(test, raw, P, w, fuel);
  }

  /**
   * Where the loop condition as written fails on a tracked world, every
   * unfinished passenger never boarded and asked to go from a floor to the
   * same floor, and a cab with its elevator id stands exactly there.
   */
  lemma StoppedStrands(raw: seq<Request>, w: World)
    requires Tracked(w) && !StillRunningAsWritten(raw, w)
    ensures forall i :: 0 <= i < |w.riders| && !w.riders[i].HasCompleted() ==>
      && !w.riders[i].HasEntered()
      && w.riders[i].origin == w.riders[i].destination
      && (exists k :: 0 <= k < |w.fleet| && w.fleet[k].id == w.riders[i].elevatorId
           && w.fleet[k].IsAtFloor() && w.fleet[k].Floor() == w.riders[i].origin)
  {
    forall i | 0 <= i < |w.riders| && !w.riders[i].HasCompleted()
      ensures !w.riders[i].HasEntered() && w.riders[i].origin == w.riders[i].destination
      ensures exists k :: (0 <= k < |w.fleet| && w.fleet[k].id == w.riders[i].elevatorId
           && w.fleet[k].IsAtFloor() && w.fleet[k].Floor() == w.riders[i].origin)
    {
      var r := w.riders[i];
      assert !OnBoard(r);
      assert Assigned(w.fleet, r);
      var k :| 0 <= k < |w.fleet| && w.fleet[k].id == r.elevatorId && Owes(w.fleet[k], r);
      assert w.fleet[k].queue == [];
    }
  }

  /** A world before the first iteration whose cabs are settled is tracked. */
  lemma InitialTracked(fleet: seq<Cab>)
    requires forall k :: 0 <= k < |fleet| ==> Settled(fleet[k])
    ensures Tracked(Initial(fleet))
  {
  }

  /**
   * `execute` as written, from its constructor's state, returns only when
   * every passenger whose origin differs from the destination has completed
   * the journey. A passenger left unfinished never boarded, asked for the
   * floor of the request itself, and has a cab standing at that floor.
   */
  lemma JourneysComplete(raw: seq<Request>, fleet: seq<Cab>, fuel: nat)
    requires FleetValid(fleet) && (forall k :: 0 <= k < |fleet| ==> Settled(fleet[k]))
    requires Run(AsWritten, raw, Initial(fleet), fuel).1 == Finished
    ensures var w := Run(AsWritten, raw, Initial(fleet), fuel).0;
      forall i :: 0 <= i < |w.riders| && w.riders[i].origin != w.riders[i].destination ==>
        w.riders[i].HasCompleted()
    ensures var w := Run(AsWritten, raw, Initial(fleet), fuel).0;
      forall i :: 0 <= i < |w.riders| && !w.riders[i].HasCompleted() ==>
        && !w.riders[i].HasEntered()
        && (exists k :: 0 <= k < |w.fleet| && w.fleet[k].id == w.riders[i].elevatorId
             && w.fleet[k].IsAtFloor() && w.fleet[k].Floor() == w.riders[i].origin)
  {
    InitialConsistent(raw, fleet);
    InitialTracked(fleet);
    RunTracked(AsWritten, raw, Initial(fleet), fuel);
    FinishedStops(AsWritten, raw, Initial(fleet), fuel);
    StoppedStrands(raw, Run(AsWritten, raw, Initial(fleet), fuel).0);
  }

  /** A single request, due at time 0, from floor 3 to floor 3. */
  function SameFloorRequest(): seq<Request> {
    [Request(0, 3, 3)]
  }

  /** One cab, id 0, parked at the ground floor of a five-floor building with 3 m floors. */
  function SameFloorFleet(): seq<Cab> {
    [Parked(0, 0, 6, 4)]
  }

  /** The record the request creates for the cab with id 0. */
  function SameFloorRider(): Rider {
    NewRider(0, 3, 3, 0)
  }

  /** The cab climbing towards floor 3, at elevation `e` and clock `e`. */
  function SameFloorClimb(e: nat): World {
    World([Cab(0, 6, 4, e, [3], 0, Up)], [SameFloorRider()], [], e)
  }

  /** Landed at floor 3, holding, with nothing queued, at clock 18. */
  function SameFloorLanded(): World {
    World([Cab(0, 6, 4, 18, [], HoldTime, Down)], [SameFloorRider()], [], 18)
  }

  /** One iteration later: the passenger has alighted at floor 3 without ever boarding. */
  function SameFloorAlighted(): World {
    World([Cab(0, 6, 4, 18, [], HoldTime - 1, Down)], [SameFloorRider().(exited := Some(18))], [], 19)
  }

  /** The first iteration queues floor 3 once, records the passenger and starts the climb. */
  lemma SameFloorDispatch()
    ensures Step(SameFloorRequest(), Initial(SameFloorFleet())) == Ok(SameFloorClimb(1))
  {
    var raw, w := SameFloorRequest(), Initial(SameFloorFleet());
    var q := Request(0, 3, 3);
    var c0, c1 := Cab(0, 6, 4, 0, [], 0, Idle), Cab(0, 6, 4, 0, [3], 0, Up);
    assert SameFloorFleet() == [c0];
    assert Found(raw, 0) == [q];
    assert SortByTimeDesc([q]) == [q];
    var w1 := Ingest(raw, w);
    assert w1 == World([c0], [], [q], 0);
    assert Quickest([c0], q) == Some(0);
    assert Dedupe([3]) == [3];
    assert Sort([3], true) == [3];
    assert c0.AddFloor(3) == Ok(c1);
    assert c1.AddFloor(3) == Ok(c1);
    assert Assign(c0, q) == Ok(c1);
    var w2 := World([c1], [SameFloorRider()], [], 0);
    TryDispatchWith(w1, 0, 0, c1);
    assert [c0][0 := c1] == [c1];
    assert [] + [SameFloorRider()] == [SameFloorRider()];
    assert w1.pending[..0] + w1.pending[1..] == [];
    assert TryDispatch(w1, 0) == Ok(w2);
    DispatchDownStep(w1, 0, w2);
    assert DispatchAll(w1) == Ok(w2);
    OffloadFromSkips(w2, 0, 0);
    assert Offload(w2, 0) == Ok(w2);
    assert Boarded(w2.riders, c1, 0) == w2.riders;
    assert Onboard(w2, 0) == w2;
    var w3 := w2.(fleet := [Cab(0, 6, 4, 1, [3], 0, Up)]);
    assert c1.Moved() == 1;
    assert c1.(elevation := 1).Served() == c1.(elevation := 1);
    assert c1.Tick() == w3.fleet[0];
    assert w2.fleet[0 := c1.Tick()] == w3.fleet;
    assert ServeOne(w2, 0) == Ok(w3);
    ServeFromStep(w2, 0, w3);
  }

  /** Below floor 3 nothing happens but one step up. */
  lemma SameFloorClimbStep(e: nat)
    requires 1 <= e < 17
    ensures Step(SameFloorRequest(), SameFloorClimb(e)) == Ok(SameFloorClimb(e + 1))
  {
    var raw, w := SameFloorRequest(), SameFloorClimb(e);
    var c := w.fleet[0];
    assert Found(raw, e) == [];
    assert Ingest(raw, w) == w;
    assert DispatchAll(w) == Ok(w);
    assert c.Floor() < 3;
    OffloadFromSkips(w, 0, 0);
    assert Offload(w, 0) == Ok(w);
    assert Boarded(w.riders, c, e) == w.riders;
    assert Onboard(w, 0) == w;
    var w3 := w.(fleet := [Cab(0, 6, 4, e + 1, [3], 0, Up)]);
    var moved := c.(elevation := e + 1);
    assert c.Moved() == e + 1;
    assert moved.Floor() < 3;
    assert moved.Served() == moved;
    assert moved.Headed() == moved;
    assert c.Tick() == w3.fleet[0];
    assert w.fleet[0 := c.Tick()] == w3.fleet;
    assert ServeOne(w, 0) == Ok(w3);
    ServeFromStep(w, 0, w3);
  }

  /** The step that reaches floor 3 dequeues it and starts the hold; the passenger is still waiting. */
  lemma SameFloorLands()
    ensures Step(SameFloorRequest(), SameFloorClimb(17)) == Ok(SameFloorLanded())
  {
    var raw, w := SameFloorRequest(), SameFloorClimb(17);
    var c := w.fleet[0];
    assert Found(raw, 17) == [];
    assert Ingest(raw, w) == w;
    assert DispatchAll(w) == Ok(w);
    assert !c.IsAtFloor();
    var landed := c.(elevation := 18);
    assert c.Moved() == 18;
    assert landed.Floor() == 3 && landed.IsAtDestination();
    assert RemoveAll([3], 3) == [];
    assert landed.Served() == Cab(0, 6, 4, 18, [], HoldTime, Up);
    var w3 := w.(fleet := SameFloorLanded().fleet);
    assert c.Tick() == w3.fleet[0];
    assert w.fleet[0 := c.Tick()] == w3.fleet;
    assert ServeOne(w, 0) == Ok(w3);
    ServeFromStep(w, 0, w3);
  }

  /** Standing at floor 3, the cab lets the passenger alight although the passenger never boarded. */
  lemma SameFloorAlights()
    ensures Step(SameFloorRequest(), SameFloorLanded()) == Ok(SameFloorAlighted())
  {
    var raw, w := SameFloorRequest(), SameFloorLanded();
    var c := w.fleet[0];
    assert Found(raw, 18) == [];
    assert Ingest(raw, w) == w;
    assert DispatchAll(w) == Ok(w);
    assert c.IsAtFloor() && c.Floor() == 3;
    assert Alights(SameFloorRider(), c);
    var r := SameFloorRider().(exited := Some(18));
    assert RemoveAll([], 3) == [];
    var w1 := w.(riders := [r]);
    assert w1 == w.(riders := w.riders[0 := r], fleet := w.fleet[0 := c.RemoveCurrentFloor()]);
    assert r.TimeToCompletion() == Ok(18);
    assert TotalCompletionTime([r]) == Ok(18) by {
      assert [r][1..] == [];
    }
    OffloadFromAlights(w, 0, 0, w1);
    assert Offload(w, 0) == Ok(w1);
    assert Boarded(w1.riders, c, 18) == w1.riders;
    assert Onboard(w1, 0) == w1;
    var w3 := w1.(fleet := [Cab(0, 6, 4, 18, [], HoldTime - 1, Down)]);
    assert c.Tick() == w3.fleet[0];
    assert w.fleet[0 := c.Tick()] == w3.fleet;
    assert ServeOne(w, 0) == Ok(w3);
    ServeFromStep(w, 0, w3);
  }

  /** While the cab climbs, floor 3 is queued, so both loop conditions hold. */
  lemma SameFloorClimbGoesOn(test: LoopTest, e: nat)
    ensures Continues(test, SameFloorRequest(), SameFloorClimb(e))
  {
    assert !SameFloorClimb(e).fleet[0].IsDestinationQueueEmpty();
  }

  /** On landing, only the intended condition still sees the passenger who never boarded. */
  lemma SameFloorLandedTests()
    ensures !Continues(AsWritten, SameFloorRequest(), SameFloorLanded())
    ensures Continues(Intended, SameFloorRequest(), SameFloorLanded())
  {
    assert !SameFloorLanded().riders[0].HasCompleted();
  }

  /** Once the passenger has alighted, the intended condition fails too. */
  lemma SameFloorAlightedStops()
    ensures !Continues(Intended, SameFloorRequest(), SameFloorAlighted())
  {
  }

  /** Under either loop condition the run goes on after the first iteration. */
  lemma SameFloorStart(test: LoopTest, fuel: nat)
    requires fuel > 0
    ensures Run(test, SameFloorRequest(), Initial(SameFloorFleet()), fuel)
         == Run(test, SameFloorRequest(), SameFloorClimb(1), fuel - 1)
  {
    SameFloorDispatch();
    SameFloorClimbGoesOn(test, 1);
    RunGoesOn(test, SameFloorRequest(), Initial(SameFloorFleet()), SameFloorClimb(1), fuel);
  }

  /** Each climbing iteration below the landing hands the run on to the next elevation. */
  lemma SameFloorClimbRun(test: LoopTest, e: nat, fuel: nat)
    requires 1 <= e < 17 && fuel > 0
    ensures Run(test, SameFloorRequest(), SameFloorClimb(e), fuel)
         == Run(test, SameFloorRequest(), SameFloorClimb(e + 1), fuel - 1)
  {
    SameFloorClimbStep(e);
    SameFloorClimbGoesOn(test, e + 1);
    RunGoesOn(test, SameFloorRequest(), SameFloorClimb(e), SameFloorClimb(e + 1), fuel);
  }

  /** The iteration that lands ends the loop as written; the intended loop needs one more. */
  lemma SameFloorFinal(test: LoopTest, fuel: nat)
    requires fuel >= 1
    ensures test == AsWritten ==>
      Run(test, SameFloorRequest(), SameFloorClimb(17), fuel) == (SameFloorLanded(), Finished)
    ensures test == Intended && fuel > 1 ==>
      Run(test, SameFloorRequest(), SameFloorClimb(17), fuel) == (SameFloorAlighted(), Finished)
  {
    var raw, f := SameFloorRequest(), fuel - 1;
    SameFloorLands();
    SameFloorLandedTests();
    if test == AsWritten {
      RunEndsAfter(test, raw, SameFloorClimb(17), SameFloorLanded(), fuel);
    } else {
      RunGoesOn(test, raw, SameFloorClimb(17), SameFloorLanded(), fuel);
      if f > 0 {
        SameFloorAlights();
        SameFloorAlightedStops();
        RunEndsAfter(test, raw, SameFloorLanded(), SameFloorAlighted(), f);
      }
    }
  }

  /**
   * From elevation `e` on, the loop as written stops as soon as the cab has
   * landed; the intended loop runs one iteration more, in which the
   * passenger alights.
   */
  lemma {:induction false} SameFloorRun(test: LoopTest, e: nat, fuel: nat)
    requires 1 <= e <= 17 && fuel >= 18 - e
    ensures test == AsWritten ==>
      Run(test, SameFloorRequest(), SameFloorClimb(e), fuel) == (SameFloorLanded(), Finished)
    ensures test == Intended && fuel > 18 - e ==>
      Run(test, SameFloorRequest(), SameFloorClimb(e), fuel) == (SameFloorAlighted(), Finished)
    decreases 17 - e
  {
    if e < 17 {
      SameFloorClimbRun(test, e, fuel);
      SameFloorRun(test, e + 1, fuel - 1);
    } else {
      SameFloorFinal(test, fuel);
    }
  }

  /**
   * `execute` as written, on a request from floor 3 to floor 3, finishes at
   * clock 18 with the passenger neither boarded nor arrived: the only queued
   * floor is dequeued on landing, and a passenger who has not boarded does
   * not keep the loop going.
   */
  lemma SameFloorStrandedAsWritten(fuel: nat)
    requires fuel >= 18
    ensures Run(AsWritten, SameFloorRequest(), Initial(SameFloorFleet()), fuel) == (SameFloorLanded(), Finished)
    ensures !SameFloorLanded().riders[0].HasEntered() && !SameFloorLanded().riders[0].HasCompleted()
  {
    var f := fuel - 1;
    SameFloorStart(AsWritten, fuel);
    assert Run(AsWritten, SameFloorRequest(), SameFloorClimb(1), f) == (SameFloorLanded(), Finished) by {
      SameFloorRun(AsWritten, 1, f);
    }
  }

  /** The intended loop, on the same request, finishes at clock 19 with the journey completed. */
  lemma SameFloorCompletesIntended(fuel: nat)
    requires fuel >= 19
    ensures Run(Intended, SameFloorRequest(), Initial(SameFloorFleet()), fuel) == (SameFloorAlighted(), Finished)
    ensures SameFloorAlighted().riders[0].HasCompleted()
  {
    var f := fuel - 1;
    SameFloorStart(Intended, fuel);
    assert Run(Intended, SameFloorRequest(), SameFloorClimb(1), f) == (SameFloorAlighted(), Finished) by {
      SameFloorRun(Intended, 1, f);
    }
  }
}
