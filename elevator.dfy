/**
 * One cab's motion state machine.
 *
 * Lengths are counted in half-metres, the distance a cab travels in one tick
 * (0.5 m per tenth of a second at 5 m/s). A floor of h metres is `2 * h` units
 * high, and the same number is the time in tenths of a second the cab needs to
 * travel one floor.
 */
module Elevators {
  import opened Common
  import opened Queues

  /** Dwell time at a served floor, in tenths of a second (10 s). */
  const HoldTime: nat := 100

  type Positive = n: int | n > 0 witness 1

  datatype Direction = Idle | Up | Down

  /** Arithmetic facts about the rounding of `elevation / height`. */
  lemma DivBelow(x: nat, b: int, h: Positive)
    requires x < b * h
    ensures x / h < b
  {
    var q := x / h;
    assert q * h <= x;
    assert (q - b) * h < 0;
  }

  lemma DivAtLeast(x: nat, b: int, h: Positive)
    requires b * h <= x
    ensures b <= x / h
  {
    var q := x / h;
    assert x < q * h + h;
    assert (b - q - 1) * h < 0;
  }

  lemma MultipleDiv(b: nat, h: Positive)
    ensures (b * h) / h == b && (b * h) % h == 0
  {
    DivBelow(b * h, b + 1, h);
    DivAtLeast(b * h, b, h);
    assert b * h == ((b * h) / h) * h + (b * h) % h;
  }

  /** Rounding up: exact multiples stay, anything else goes one above the rounded-down quotient. */
  lemma CeilDiv(x: nat, h: Positive)
    ensures (x + h - 1) / h == if x % h == 0 then x / h else x / h + 1
  {
    var k := x / h;
    assert x == k * h + x % h;
    if x % h == 0 {
      DivBelow(x + h - 1, k + 1, h);
      DivAtLeast(x + h - 1, k, h);
    } else {
      DivAtLeast(x + h - 1, k + 1, h);
      DivBelow(x + h - 1, k + 2, h);
    }
  }

  lemma MulMono(a: nat, b: nat, h: Positive)
    requires a <= b
    ensures a * h <= b * h
  {
    assert (b - a) * h >= 0;
  }

  /**
   * The value of a cab at one moment. `height` is the floor height in
   * half-metres; `hold` is the remaining dwell time in tenths of a second.
   */
  datatype Cab = Cab(
    id: int,
    height: Positive,
    totalFloors: nat,
    elevation: nat,
    queue: seq<int>,
    hold: nat,
    dir: Direction)
  {
    /** The invariant every cab keeps. */
    ghost predicate Valid() {
      && elevation <= Highest()
      && NoDuplicates(queue)
      && (forall f :: f in queue ==> 0 <= f <= totalFloors)
      && (dir == Idle ==> queue == [])
      && (hold > 0 ==> IsAtFloor())
    }

    function Highest(): nat {
      height * totalFloors
    }

    predicate IsIdle() {
      dir == Idle
    }

    predicate IsAscending() {
      dir == Up
    }

    predicate IsDescending() {
      dir == Down
    }

    predicate IsDestinationQueueEmpty() {
      queue == []
    }

    /** The floor the cab serves: rounded down while Idle or Up, rounded up while Down. */
    function Floor(): int {
      if IsDescending() then (elevation + height - 1) / height else elevation / height
    }

    predicate IsAtFloor() {
      elevation % height == 0
    }

    predicate IsAtDestination() {
      IsAtFloor() && Floor() in queue
    }

    /** Drops every queue entry equal to the current floor. */
    function RemoveCurrentFloor(): (r: Cab)
      ensures r.queue == RemoveAll(queue, Floor())
      ensures r.(queue := queue) == this
      ensures r.Floor() == Floor() && r.IsAtFloor() == IsAtFloor()
      ensures Valid() ==> r.Valid()
    {
      this.(queue := RemoveAll(queue, Floor()))
    }

    /** Removing the current floor a second time changes nothing. */
    lemma RemoveCurrentFloorTwice()
      ensures RemoveCurrentFloor().RemoveCurrentFloor() == RemoveCurrentFloor()
    {
      RemoveAllAbsent(RemoveAll(queue, Floor()), Floor());
    }

    /**
     * Queues a floor. Already queued: nothing happens (even if out of range).
     * Out of range: an error and nothing changes. The current floor of a cab
     * that is holding or idle: nothing happens. Otherwise the floor is added,
     * an idle cab starts moving towards it, and the queue is sorted in the
     * direction of travel.
     */
    function AddFloor(f: int): (r: Result<Cab>)
    {
      if f in queue then Ok(this)
      else if f < 0 || f > totalFloors then Err(InvalidFloorRequest(totalFloors))
      else if Floor() == f && (hold > 0 || IsIdle()) then Ok(this)
      else
        var pushed := Dedupe(queue + [f]);
        var d := if IsIdle() then (if Floor() > f then Down else Up) else dir;
        var sorted := if d == Up then Sort(pushed, true) else if d == Down then Sort(pushed, false) else pushed;
        Ok(this.(queue := sorted, dir := d))
    }

    /** Adding fails exactly for an unqueued floor outside [0, totalFloors]. */
    lemma AddFloorFails(f: int)
      ensures AddFloor(f).Err? <==> f !in queue && (f < 0 || f > totalFloors)
      ensures AddFloor(f).Err? ==> AddFloor(f).error == InvalidFloorRequest(totalFloors)
    {
    }

    /** A queued floor, or the floor a holding or idle cab stands at, changes nothing. */
    lemma AddFloorNoOp(f: int)
      requires f in queue || (0 <= f <= totalFloors && Floor() == f && (hold > 0 || IsIdle()))
      ensures AddFloor(f) == Ok(this)
    {
    }

    /**
     * Otherwise the floor joins the queue, the queue stays free of duplicates
     * and is sorted in the direction of travel, an idle cab heads towards
     * the floor, and nothing else changes.
     */
    lemma AddFloorQueues(f: int)
      requires f !in queue && 0 <= f <= totalFloors
      requires !(Floor() == f && (hold > 0 || IsIdle()))
      ensures AddFloor(f).Ok?
      ensures var c := AddFloor(f).value;
        && (forall x :: x in c.queue <==> x in queue || x == f)
        && NoDuplicates(c.queue)
        && (IsIdle() ==> (c.IsDescending() <==> Floor() > f) && (c.IsAscending() <==> Floor() < f))
        && (!IsIdle() ==> c.dir == dir)
        && (c.IsAscending() ==> SortedBy(c.queue, true))
        && (c.IsDescending() ==> SortedBy(c.queue, false))
        && c.(queue := queue, dir := dir) == this
    {
      var pushed := Dedupe(queue + [f]);
      DedupeSpec(queue + [f]);
      var c := AddFloor(f).value;
      var d := if IsIdle() then (if Floor() > f then Down else Up) else dir;
      assert c == this.(queue := c.queue, dir := d);
      if d == Up {
        SortSpec(pushed, true);
        assert c.queue == Sort(pushed, true);
      } else {
        SortSpec(pushed, false);
        assert c.queue == Sort(pushed, false);
      }
      assert multiset(c.queue) == multiset(pushed);
      forall x ensures x in c.queue <==> x in queue || x == f {
        assert x in c.queue <==> x in multiset(c.queue);
        assert x in pushed <==> x in multiset(pushed);
      }
      forall x ensures multiset(c.queue)[x] <= 1 {
        assert multiset(pushed)[x] <= 1;
      }
    }

    /**
     * Whatever the case, a successful add keeps every queued floor, leaves the
     * cab's identity, shape and position alone, and either queues the floor
     * or leaves the cab unchanged because it stands there already.
     */
    lemma AddFloorKeeps(f: int)
      requires AddFloor(f).Ok?
      ensures var c := AddFloor(f).value;
        && (forall x :: x in queue ==> x in c.queue)
        && (f in c.queue || (c == this && Floor() == f))
        && c.id == id && c.height == height && c.totalFloors == totalFloors
        && c.elevation == elevation && c.hold == hold
    {
      if f !in queue && !(Floor() == f && (hold > 0 || IsIdle())) {
        AddFloorFails(f);
        AddFloorQueues(f);
      }
    }

    /** Adding a floor keeps the cab's invariant. */
    lemma AddFloorValid(f: int)
      requires Valid() && AddFloor(f).Ok?
      ensures AddFloor(f).value.Valid()
    {
      if f !in queue && !(Floor() == f && (hold > 0 || IsIdle())) {
        AddFloorFails(f);
        AddFloorQueues(f);
      }
    }

    /** Idle or Up: the floor at or below the cab. Down: the floor at or above it. */
    lemma FloorBounds()
      ensures !IsDescending() ==> Floor() * height <= elevation < Floor() * height + height
      ensures IsDescending() ==> Floor() * height - height < elevation <= Floor() * height
    {
      var q := Floor();
      if IsDescending() {
        var x := elevation + height - 1;
        assert q * height <= x < q * height + height;
      } else {
        assert q * height <= elevation < q * height + height;
      }
    }

    /** The cab is at a floor exactly when its elevation is that floor's, whatever the rounding. */
    lemma AtFloorIsExact()
      ensures IsAtFloor() <==> elevation == Floor() * height
    {
      var k := elevation / height;
      assert elevation == k * height + elevation % height;
      CeilDiv(elevation, height);
      if IsDescending() && !IsAtFloor() {
        assert Floor() * height == k * height + height;
      }
    }

    /** A valid cab always reports a floor in [0, totalFloors]. */
    lemma FloorInRange()
      requires Valid()
      ensures 0 <= Floor() <= totalFloors
    {
      if IsDescending() {
        DivBelow(elevation + height - 1, totalFloors + 1, height);
      } else {
        DivBelow(elevation, totalFloors + 1, height);
      }
    }

    /**
     * The estimated time, in tenths of a second, to reach `target`: the travel
     * time, the remaining hold, and one full hold for each queued stop on the
     * way, in the direction of travel, up to and including the target.
     */
    function TimeToFloor(target: int): (t: nat)
      ensures t == 0 <==> target == Floor()
      ensures target != Floor() ==> t >= Abs(target - Floor()) * height + hold
    {
      var current := Floor();
      var floorsToMove := Abs(target - current);
      if floorsToMove == 0 then 0
      else
        var timePerFloor := height;
        floorsToMove * timePerFloor + hold + HoldTime * StopCount(queue, dir, current, target)
    }

    /**
     * Beyond travel and the remaining hold, the estimate charges one full
     * hold per distinct queued floor strictly past the cab's floor and up to
     * the target, in the direction of travel; none when the cab is Idle.
     */
    lemma TimeToFloorStops(target: int)
      requires Valid() && target != Floor()
      ensures TimeToFloor(target) - Abs(target - Floor()) * height - hold
           == HoldTime * |set f | f in queue && IsStopBefore(f, dir, Floor(), target)|
      ensures dir == Idle ==> TimeToFloor(target) == Abs(target - Floor()) * height + hold
    {
      StopCountIsSetSize(queue, dir, Floor(), target);
    }

    /** The elevation after one step in the direction of travel, stopping at the shaft's ends. */
    function Moved(): nat {
      if IsAscending() && elevation < Highest() then elevation + 1
      else if IsDescending() && elevation > 0 then elevation - 1
      else elevation
    }

    /**
     * One tenth of a second. A holding cab only counts down; a cab with
     * nowhere to go becomes Idle; otherwise it moves one step, starts a hold
     * if it reached a queued floor (dequeuing it), and takes its direction
     * from the head of the queue, compared with the floor as seen in the old
     * direction. An empty queue compares false, so the cab turns Down.
     */
    function Tick(): Cab {
      if hold > 0 then this.(hold := hold - 1)
      else if IsDestinationQueueEmpty() then this.(dir := Idle)
      else this.(elevation := Moved()).Served().Headed()
    }

    /** At a queued floor: a full hold starts and the floor leaves the queue. */
    function Served(): Cab {
      if IsAtDestination() then this.(hold := HoldTime).RemoveCurrentFloor() else this
    }

    /** The direction taken from the queue's head: Up if it lies above the floor, else Down. */
    function Headed(): Cab {
      this.(dir := if |queue| > 0 && queue[0] > Floor() then Up else Down)
    }
  }

  /** A tick keeps the invariant; in particular the elevation stays within [0, Highest()]. */
  lemma TickValid(c: Cab)
    requires c.Valid()
    ensures c.Tick().Valid()
  {
  }

  /** While holding, a tick only counts the hold down. */
  lemma TickHolding(c: Cab)
    requires c.hold > 0
    ensures c.Tick().hold == c.hold - 1
    ensures c.Tick().(hold := c.hold) == c
  {
  }

  /** With no hold and nothing queued, a tick only makes the cab Idle. */
  lemma TickWithoutDestination(c: Cab)
    requires c.hold == 0 && c.IsDestinationQueueEmpty()
    ensures c.Tick() == c.(dir := Idle)
  {
  }

  /**
   * A moving tick: one step in the direction of travel (none at the end of
   * the shaft, or while Idle); at a queued floor a full hold starts and that
   * floor leaves the queue; the new direction is Up exactly when the queue's
   * head lies above the floor seen in the old direction.
   */
  lemma TickMoves(c: Cab)
    requires c.hold == 0 && !c.IsDestinationQueueEmpty()
    ensures var t, landed := c.Tick(), c.(elevation := c.Moved());
      && t.elevation == landed.elevation
      && (c.IsAscending() && c.elevation < c.Highest() ==> t.elevation == c.elevation + 1)
      && (c.IsDescending() && c.elevation > 0 ==> t.elevation == c.elevation - 1)
      && (!(c.IsAscending() && c.elevation < c.Highest()) && !(c.IsDescending() && c.elevation > 0) ==>
            t.elevation == c.elevation)
      && (landed.IsAtDestination() ==>
            t.hold == HoldTime && t.queue == RemoveAll(c.queue, landed.Floor()) && landed.Floor() !in t.queue)
      && (!landed.IsAtDestination() ==> t.hold == 0 && t.queue == c.queue)
      && (t.IsAscending() <==> t.queue != [] && t.queue[0] > landed.Floor())
      && (t.IsDescending() <==> !t.IsAscending())
      && t.id == c.id && t.height == c.height && t.totalFloors == c.totalFloors
  {
    var landed := c.(elevation := c.Moved());
    assert landed.Served().Floor() == landed.Floor();
  }

  function Abs(x: int): nat {
    if x < 0 then -x else x
  }

  /** Whether a queued floor `f` is a stop on the way from `current` to `target`. */
  predicate IsStopBefore(f: int, dir: Direction, current: int, target: int) {
    (dir == Up && f <= target && f > current) || (dir == Down && f >= target && f < current)
  }

  /** The length of `queue.filter(f => IsStopBefore(f, ...))`. */
  function StopCount(queue: seq<int>, dir: Direction, current: int, target: int): (n: nat)
    ensures n <= |queue|
  {
    if queue == [] then 0
    else (if IsStopBefore(queue[0], dir, current, target) then 1 else 0) + StopCount(queue[1..], dir, current, target)
  }

  /**
   * With a queue free of duplicates, the stops counted are exactly the
   * distinct queued floors strictly beyond the current floor, up to and
   * including the target, in the direction of travel.
   */
  lemma {:induction false} StopCountIsSetSize(queue: seq<int>, dir: Direction, current: int, target: int)
    requires NoDuplicates(queue)
    ensures StopCount(queue, dir, current, target)
         == |set f | f in queue && IsStopBefore(f, dir, current, target)|
  {
    if queue == [] {
      assert (set f | f in queue && IsStopBefore(f, dir, current, target)) == {};
    } else {
      var x, rest := queue[0], queue[1..];
      assert queue == [x] + rest;
      assert multiset(queue) == multiset{x} + multiset(rest);
      assert NoDuplicates(rest) by {
        forall y ensures multiset(rest)[y] <= 1 {
          assert multiset(queue)[y] == multiset{x}[y] + multiset(rest)[y];
        }
      }
      assert x !in rest by {
        assert multiset(queue)[x] == 1 + multiset(rest)[x];
      }
      StopCountIsSetSize(rest, dir, current, target);
      var all := set f | f in queue && IsStopBefore(f, dir, current, target);
      var tail := set f | f in rest && IsStopBefore(f, dir, current, target);
      if IsStopBefore(x, dir, current, target) {
        assert all == tail + {x};
      } else {
        assert all == tail;
      }
    }
  }

  /** A parked cab as the constructor builds it: idle at a floor, nothing queued. */
  function Parked(id: int, floor: nat, height: Positive, totalFloors: nat): (c: Cab)
    requires floor <= totalFloors
    ensures c.Valid() && c.Floor() == floor && c.IsAtFloor()
  {
    MulMono(floor, totalFloors, height);
    MultipleDiv(floor, height);
    Cab(id, height, totalFloors, floor * height, [], 0, Idle)
  }

  /** The cab after `n` ticks. */
  function Ticks(c: Cab, n: nat): Cab
    decreases n
  {
    if n == 0 then c else Ticks(c.Tick(), n - 1)
  }

  lemma {:induction false} TicksSnoc(c: Cab, n: nat)
    ensures Ticks(c, n + 1) == Ticks(c, n).Tick()
    decreases n
  {
    if n > 0 {
      TicksSnoc(c.Tick(), n - 1);
    }
  }

  /** A holding cab stays put and counts its hold down, one tenth of a second per tick. */
  lemma {:induction false} HoldCountsDown(c: Cab, n: nat)
    requires n <= c.hold
    ensures Ticks(c, n) == c.(hold := c.hold - n)
    decreases n
  {
    if n > 0 {
      assert c.Tick() == c.(hold := c.hold - 1);
      HoldCountsDown(c.Tick(), n - 1);
    }
  }

  /**
   * After serving its last stop a cab is Down, not Idle; it becomes Idle
   * only on the tick after its hold has run out.
   */
  lemma IdleOnlyAfterHold(c: Cab)
    requires c.hold == HoldTime && c.queue == [] && c.IsDescending()
    ensures forall n :: 0 <= n <= HoldTime ==> !Ticks(c, n).IsIdle()
    ensures Ticks(c, HoldTime + 1) == c.(hold := 0, dir := Idle)
  {
    forall n | 0 <= n <= HoldTime ensures !Ticks(c, n).IsIdle() {
      HoldCountsDown(c, n);
    }
    HoldCountsDown(c, HoldTime);
    TicksSnoc(c, HoldTime);
  }

  /** One tick of a climb that has not yet reached its only stop `b`. */
  lemma ClimbStep(c: Cab, b: int)
    requires c.Valid() && c.IsAscending() && c.hold == 0 && c.queue == [b]
    requires c.elevation + 1 < b * c.height
    ensures c.Tick() == c.(elevation := c.elevation + 1)
  {
    assert c.queue[0] == b && b in c.queue;
    MulMono(b, c.totalFloors, c.height);
    DivBelow(c.elevation + 1, b, c.height);
  }

  /** The tick that reaches the only stop: a full hold, an empty queue, and (compared with undefined) Down. */
  lemma ClimbLand(c: Cab, b: int)
    requires c.Valid() && c.IsAscending() && c.hold == 0 && c.queue == [b]
    requires c.elevation + 1 == b * c.height
    ensures c.Tick() == c.(elevation := b * c.height, queue := [], hold := HoldTime, dir := Down)
  {
    assert c.queue[0] == b && b in c.queue;
    MulMono(b, c.totalFloors, c.height);
    MultipleDiv(b, c.height);
    var moved := c.(elevation := b * c.height);
    assert moved.IsAtDestination();
    assert RemoveAll([b], b) == [] by {
      assert [b][1..] == [];
    }
    assert moved.(hold := HoldTime).RemoveCurrentFloor().queue == [];
  }

  /**
   * A cab climbing towards its only stop `b` arrives after one tick per
   * half-metre, with a full hold and an empty queue.
   */
  lemma {:induction false} ClimbArrives(c: Cab, b: int)
    requires c.Valid() && c.IsAscending() && c.hold == 0 && c.queue == [b]
    requires c.elevation < b * c.height
    ensures Ticks(c, b * c.height - c.elevation)
         == c.(elevation := b * c.height, queue := [], hold := HoldTime, dir := Down)
    decreases b * c.height - c.elevation
  {
    if c.elevation + 1 == b * c.height {
      ClimbLand(c, b);
    } else {
      ClimbStep(c, b);
      ClimbArrives(c.Tick(), b);
    }
  }

  /** Floor 0 to floor 50 of 3 m floors, nothing queued: 50 floors at 6 tenths each. */
  lemma TimeToTopExample()
    ensures Parked(1, 0, 6, 50).TimeToFloor(50) == 300
  {
    assert Parked(1, 0, 6, 50) == Cab(1, 6, 50, 0, [], 0, Idle);
  }

  /** The same trip with floor 10 queued: one stop on the way adds a full hold. */
  lemma TimeToTopWithStopExample()
    ensures Parked(1, 0, 6, 50).AddFloor(10) == Ok(Cab(1, 6, 50, 0, [10], 0, Up))
    ensures Cab(1, 6, 50, 0, [10], 0, Up).TimeToFloor(50) == 400
  {
    assert Parked(1, 0, 6, 50) == Cab(1, 6, 50, 0, [], 0, Idle);
    assert Dedupe([10]) == [10];
    assert Sort([10], true) == [10];
    assert StopCount([10], Up, 0, 50) == 1;
  }

  /** Floor 7 down to floor 5: two floors, 1.2 s. */
  lemma TimeTwoFloorsDownExample()
    ensures Parked(1, 7, 6, 50).TimeToFloor(5) == 12
  {
    assert Parked(1, 7, 6, 50) == Cab(1, 6, 50, 42, [], 0, Idle);
  }

  /** With floors 2 and 5 queued, the estimate to 5 counts both stops, the target included. */
  lemma TimeCountsTargetStopExample()
    ensures Cab(1, 6, 50, 0, [2, 5], 0, Up).TimeToFloor(5) == 230
  {
    assert StopCount([2, 5], Up, 0, 5) == 2 by {
      assert [2, 5][1..] == [5];
      assert [5][1..] == [];
    }
  }

  /** An idle cab at floor 0 asked for floor 1 queues it and heads Up. */
  lemma OneFloorRequestExample()
    ensures Parked(1, 0, 6, 10).AddFloor(1) == Ok(Cab(1, 6, 10, 0, [1], 0, Up))
  {
    assert Parked(1, 0, 6, 10) == Cab(1, 6, 10, 0, [], 0, Idle);
    assert Dedupe([1]) == [1];
    assert Sort([1], true) == [1];
  }

  /**
   * With 3 m floors one floor takes 6 ticks: the cab is then at 3 m with a
   * full hold, and the next tick only counts the hold down.
   */
  lemma OneFloorClimbExample()
    ensures Ticks(Cab(1, 6, 10, 0, [1], 0, Up), 6) == Cab(1, 6, 10, 6, [], 100, Down)
    ensures Ticks(Cab(1, 6, 10, 0, [1], 0, Up), 7) == Cab(1, 6, 10, 6, [], 99, Down)
  {
    var c := Cab(1, 6, 10, 0, [1], 0, Up);
    ClimbArrives(c, 1);
    TicksSnoc(c, 6);
    TickHolding(Ticks(c, 6));
  }

  /** Ten floors of 3 m take 60 ticks, ending with a full hold at floor 10. */
  lemma TenFloorClimbExample()
    ensures Parked(1, 0, 6, 50).AddFloor(10) == Ok(Cab(1, 6, 50, 0, [10], 0, Up))
    ensures Ticks(Cab(1, 6, 50, 0, [10], 0, Up), 60).Floor() == 10
    ensures Ticks(Cab(1, 6, 50, 0, [10], 0, Up), 60).hold == 100
  {
    var p := Parked(1, 0, 6, 50);
    assert p.Floor() == 0;
    assert Dedupe([10]) == [10];
    assert Sort([10], true) == [10];
    ClimbArrives(Cab(1, 6, 50, 0, [10], 0, Up), 10);
  }

  /**
   * The destination queue is sorted in the direction of travel only until
   * the cab turns: a tick re-derives the direction from the queue's head
   * without re-sorting. An idle cab at floor 5 asked for 7 and then 2 holds
   * [2, 7] while Up, and after one tick it is Down with [2, 7] still ascending.
   */
  lemma TurnLeavesQueueUnsorted()
    ensures Parked(1, 5, 6, 10).AddFloor(7).Ok?
    ensures Parked(1, 5, 6, 10).AddFloor(7).value.AddFloor(2).Ok?
    ensures var c := Parked(1, 5, 6, 10).AddFloor(7).value.AddFloor(2).value;
      c.queue == [2, 7] && c.IsAscending()
      && c.Tick().IsDescending() && c.Tick().queue == [2, 7] && !SortedBy(c.Tick().queue, false)
  {
    var p := Parked(1, 5, 6, 10);
    assert p.Floor() == 5;
    var c7 := p.AddFloor(7).value;
    assert c7 == Cab(1, 6, 10, 30, [7], 0, Up);
    assert Dedupe([7, 2]) == [7, 2];
    assert Sort([7, 2], true) == [2, 7];
    var c := c7.AddFloor(2).value;
    assert c.queue == [2, 7];
    var m := c.(elevation := 31);
    assert m.Floor() == 5;
    assert !SortedBy([2, 7], false) by {
      assert !InOrder([2, 7][0], [2, 7][1], false);
    }
  }

  /**
   * The cab whose fields the source updates in place. The getters of the
   * source are the functions of `Model()`.
   */
  class Elevator {
    const id: int
    const floorHeight: Positive
    const totalFloors: nat
    var elevation: nat
    var destinationQueue: seq<int>
    var holdTime: nat
    var state: Direction

    function Model(): Cab
      reads this
    {
      Cab(id, floorHeight, totalFloors, elevation, destinationQueue, holdTime, state)
    }

    /** `floor` must be in [0, totalFloors]; `floorHeight` is in half-metres. */
    constructor (id: int, floor: nat, floorHeight: Positive, totalFloors: nat)
      requires floor <= totalFloors
      ensures Model() == Parked(id, floor, floorHeight, totalFloors)
      ensures Model().Valid()
    {
      this.id := id;
      this.floorHeight := floorHeight;
      this.totalFloors := totalFloors;
      elevation := floor * floorHeight;
      destinationQueue := [];
      holdTime := 0;
      state := Idle;
    }

    method RemoveFloorFromDestinationQueue()
      modifies this
      ensures Model() == old(Model()).RemoveCurrentFloor()
    {
      destinationQueue := RemoveAll(destinationQueue, Model().Floor());
    }

    /** Returns the error thrown, if any; on an error nothing has changed. */
    method AddFloorToDestinationQueue(floor: int) returns (error: Option<Failure>)
      modifies this
      ensures error.None? <==> old(Model()).AddFloor(floor).Ok?
      ensures error.None? ==> Model() == old(Model()).AddFloor(floor).value
      ensures error.Some? ==> error.value == old(Model()).AddFloor(floor).error && Model() == old(Model())
    {
      if floor in destinationQueue {
        return None;
      }
      if floor < 0 || floor > totalFloors {
        return Some(InvalidFloorRequest(totalFloors));
      }
      if Model().Floor() == floor && (holdTime > 0 || state == Idle) {
        return None;
      }
      destinationQueue := destinationQueue + [floor];
      destinationQueue := Dedupe(destinationQueue);
      if state == Idle {
        state := if Model().Floor() > floor then Down else Up;
      }
      if state == Up {
        destinationQueue := Sort(destinationQueue, true);
      } else if state == Down {
        destinationQueue := Sort(destinationQueue, false);
      }
      error := None;
    }

    method Tick()
      modifies this
      ensures Model() == old(Model()).Tick()
    {
      if holdTime > 0 {
        holdTime := holdTime - 1;
        return;
      }
      if destinationQueue == [] {
        state := Idle;
        return;
      }
      Move();
      Serve();
      Head();
    }

    /** One step in the direction of travel, none at the shaft's ends. */
    method Move()
      modifies this
      ensures Model() == old(Model()).(elevation := old(Model()).Moved())
    {
      if state == Up && elevation < floorHeight * totalFloors {
        elevation := elevation + 1;
      } else if state == Down && elevation > 0 {
        elevation := elevation - 1;
      }
    }

    /** At a queued floor, the hold starts and the floor is dequeued. */
    method Serve()
      modifies this
      ensures Model() == old(Model()).Served()
    {
      if Model().IsAtDestination() {
        holdTime := HoldTime;
        RemoveFloorFromDestinationQueue();
      }
    }

    /** The direction from the queue's head. */
    method Head()
      modifies this
      ensures Model() == old(Model()).Headed()
    {
      state := if |destinationQueue| > 0 && destinationQueue[0] > Model().Floor() then Up else Down;
    }
  }

  /** The first elevator test run on the object: 60 ticks from floor 0 reach floor 10, holding. */
  method MoveToRequestedFloor() returns (floor: int, hold: nat)
    ensures floor == 10 && hold == HoldTime
  {
    var elevator := new Elevator(1, 0, 6, 50);
    var error := elevator.AddFloorToDestinationQueue(10);
    ghost var start := elevator.Model();
    assert start == Cab(1, 6, 50, 0, [10], 0, Up);
    var i := 0;
    while i < 60
      invariant 0 <= i <= 60
      invariant elevator.Model() == Ticks(start, i)
    {
      elevator.Tick();
      TicksSnoc(start, i);
      i := i + 1;
    }
    ClimbArrives(start, 10);
    floor := elevator.Model().Floor();
    hold := elevator.holdTime;
  }
}
