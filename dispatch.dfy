/**
 * Dispatching pending requests: the suitability test, the quickest-cab
 * search, one dispatch attempt, and the backward pass over the pending list.
 */
module Dispatch {
  import opened Common
  import opened Queues
  import opened Passengers
  import opened Elevators
  import opened Requests
  import opened Worlds

  /** Only origin below destination ascends; origin equal to destination counts as descending. */
  predicate IsAscensionRequest(q: Request) {
    q.origin < q.destination
  }

  /** Already travelling in the request's direction, not yet past its origin. */
  predicate IsMovingTowards(c: Cab, q: Request) {
    if IsAscensionRequest(q) then c.IsAscending() && c.Floor() <= q.origin
    else c.IsDescending() && c.Floor() >= q.origin
  }

  predicate IsCandidate(c: Cab, q: Request) {
    c.IsIdle() || IsMovingTowards(c, q)
  }

  /** The estimated time for the cab to reach the request's origin. */
  function TimeToStart(c: Cab, q: Request): nat {
    c.TimeToFloor(q.origin)
  }

  /**
   * The index of the cab that serves `q`: the candidates sorted stably by
   * time to the origin, and the first of them taken. None exactly when no cab
   * is a candidate; otherwise a candidate of least time, the first in fleet
   * order among equals.
   */
  function Quickest(fleet: seq<Cab>, q: Request): (r: Option<nat>)
    ensures r.None? <==> forall i :: 0 <= i < |fleet| ==> !IsCandidate(fleet[i], q)
    ensures r.Some? ==> r.value < |fleet| && IsCandidate(fleet[r.value], q)
    ensures r.Some? ==> forall i :: 0 <= i < |fleet| && IsCandidate(fleet[i], q) ==>
      TimeToStart(fleet[r.value], q) <= TimeToStart(fleet[i], q)
    ensures r.Some? ==> forall i :: 0 <= i < r.value && IsCandidate(fleet[i], q) ==>
      TimeToStart(fleet[r.value], q) < TimeToStart(fleet[i], q)
  {
    if fleet == [] then None
    else
      var n := |fleet| - 1;
      var best := Quickest(fleet[..n], q);
      assert forall i :: 0 <= i < n ==> fleet[..n][i] == fleet[i];
      if IsCandidate(fleet[n], q) && (best.None? || TimeToStart(fleet[n], q) < TimeToStart(fleet[best.value], q))
      then Some(n)
      else best
  }

  /** The chosen cab is given the pickup floor, then the destination floor. */
  function Assign(c: Cab, q: Request): Result<Cab> {
    match c.AddFloor(q.origin)
    case Err(e) => Err(e)
    case Ok(c1) => c1.AddFloor(q.destination)
  }

  /**
   * One iteration of the pending pass, for the request at index `i`. No
   * candidate: the request stays pending. Otherwise the quickest cab is
   * assigned the request, a passenger record is appended, and the request
   * is spliced out; a floor the cab refuses ends the run with that error.
   * Entries below `i` are never disturbed, so a pass from the back is safe.
   */
  function TryDispatch(w: World, i: nat): (r: Result<World>)
    requires i < |w.pending|
    ensures r.Ok? ==> i <= |r.value.pending| && r.value.pending[..i] == w.pending[..i]
  {
    var q := w.pending[i];
    match Quickest(w.fleet, q)
    case None => Ok(w)
    case Some(k) =>
      match Assign(w.fleet[k], q)
      case Err(e) => Err(e)
      case Ok(c) =>
        Ok(w.(fleet := w.fleet[k := c],
              riders := w.riders + [NewRider(q.time * 10, q.origin, q.destination, w.fleet[k].id)],
              pending := w.pending[..i] + w.pending[i + 1..]))
  }

  /** The backward pass `for (i = n - 1; i >= 0; i--)` over the pending list. */
  function DispatchDown(w: World, n: nat): Result<World>
    requires n <= |w.pending|
    decreases n
  {
    if n == 0 then Ok(w)
    else
      match TryDispatch(w, n - 1)
      case Err(e) => Err(e)
      case Ok(w1) => DispatchDown(w1, n - 1)
  }

  /** Dispatching every pending request, from the last index to the first. */
  function DispatchAll(w: World): Result<World> {
    DispatchDown(w, |w.pending|)
  }

  /** The request at `i` assigned to cab `k`, whose floors the cab accepted as `c`. */
  lemma TryDispatchWith(w: World, i: nat, k: nat, c: Cab)
    requires i < |w.pending| && Quickest(w.fleet, w.pending[i]) == Some(k)
    requires Assign(w.fleet[k], w.pending[i]) == Ok(c)
    ensures TryDispatch(w, i) == Ok(w.(fleet := w.fleet[k := c],
      riders := w.riders + [NewRider(w.pending[i].time * 10, w.pending[i].origin, w.pending[i].destination, w.fleet[k].id)],
      pending := w.pending[..i] + w.pending[i + 1..]))
  {
  }

  /** One step of the backward pass that dispatches or skips the request at `i`. */
  lemma DispatchDownStep(w: World, i: nat, w1: World)
    requires i < |w.pending| && TryDispatch(w, i) == Ok(w1)
    ensures DispatchDown(w, i + 1) == DispatchDown(w1, i)
  {
  }

  /** A refused floor at `i` ends the backward pass with that error. */
  lemma DispatchDownStops(w: World, i: nat, e: Failure)
    requires i < |w.pending| && TryDispatch(w, i) == Err(e)
    ensures DispatchDown(w, i + 1) == Err(e)
  {
  }

  /** The request a passenger record was created from (times in seconds). */
  function Requested(r: Rider): Request {
    Request(r.requested / 10, r.origin, r.destination)
  }

  function RequestsOf(rs: seq<Rider>): (r: seq<Request>)
    ensures |r| == |rs| && forall j :: 0 <= j < |rs| ==> r[j] == Requested(rs[j])
  {
    seq(|rs|, j requires 0 <= j < |rs| => Requested(rs[j]))
  }

  lemma RequestsOfAppend(a: seq<Rider>, b: seq<Rider>)
    ensures RequestsOf(a + b) == RequestsOf(a) + RequestsOf(b)
  {
  }

  /** TryDispatch with no candidate changes nothing: the request is retried next tick. */
  lemma NoCandidateStaysPending(w: World, i: nat)
    requires i < |w.pending|
    requires forall k :: 0 <= k < |w.fleet| ==> !IsCandidate(w.fleet[k], w.pending[i])
    ensures TryDispatch(w, i) == Ok(w)
  {
  }

  /**
   * A successful assignment: the passenger record names the quickest cab's
   * id and the request, has neither timestamp, and the request left the
   * pending list. Only the chosen cab changes, and it has the pickup floor
   * queued unless it already stood there, and the destination queued
   * unless it stands there after the pickup was added.
   */
  lemma TryDispatchAssigns(w: World, i: nat)
    requires i < |w.pending| && TryDispatch(w, i).Ok?
    requires Quickest(w.fleet, w.pending[i]).Some?
    ensures var q, k, w' := w.pending[i], Quickest(w.fleet, w.pending[i]).value, TryDispatch(w, i).value;
      && w'.riders[..|w.riders|] == w.riders && |w'.riders| == |w.riders| + 1
      && w'.riders[|w.riders|].elevatorId == w.fleet[k].id
      && Requested(w'.riders[|w.riders|]) == q
      && !w'.riders[|w.riders|].HasEntered() && !w'.riders[|w.riders|].HasCompleted()
      && w'.pending == w.pending[..i] + w.pending[i + 1..]
      && |w'.fleet| == |w.fleet|
      && (forall j :: 0 <= j < |w.fleet| && j != k ==> w'.fleet[j] == w.fleet[j])
      && (q.origin in w'.fleet[k].queue || w.fleet[k].Floor() == q.origin)
      && (q.destination in w'.fleet[k].queue || w'.fleet[k].Floor() == q.destination)
      && w'.clock == w.clock
  {
    var q, k := w.pending[i], Quickest(w.fleet, w.pending[i]).value;
    var c := w.fleet[k];
    var c1 := c.AddFloor(q.origin).value;
    c.AddFloorKeeps(q.origin);
    c1.AddFloorKeeps(q.destination);
    assert (q.time * 10) / 10 == q.time;
  }

  /**
   * `after` is `before` with some requests moved from the pending list into
   * new passenger records: the old records are kept, and the requests of the
   * new records together with those still pending are exactly the requests
   * that were pending. The fleet keeps its cabs and the clock does not move.
   */
  ghost predicate Conserves(before: World, after: World) {
    && |before.riders| <= |after.riders| && after.riders[..|before.riders|] == before.riders
    && multiset(after.pending) + multiset(RequestsOf(after.riders[|before.riders|..])) == multiset(before.pending)
    && SameCabs(before.fleet, after.fleet)
    && after.clock == before.clock
  }

  /** The records added from `a` to `c` are those added from `a` to `b`, then from `b` to `c`. */
  lemma AddedSplit(a: seq<Rider>, b: seq<Rider>, c: seq<Rider>)
    requires |a| <= |b| <= |c| && b[..|a|] == a && c[..|b|] == b
    ensures c[..|a|] == a
    ensures c[|a|..] == b[|a|..] + c[|b|..]
  {
  }

  lemma ConservesTransitive(a: World, b: World, c: World)
    requires Conserves(a, b) && Conserves(b, c)
    ensures Conserves(a, c)
  {
    AddedSplit(a.riders, b.riders, c.riders);
    var x, y := b.riders[|a.riders|..], c.riders[|b.riders|..];
    assert RequestsOf(x + y) == RequestsOf(x) + RequestsOf(y);
  }

  /** One attempt conserves requests. */
  lemma TryDispatchConserves(w: World, i: nat)
    requires i < |w.pending| && TryDispatch(w, i).Ok?
    ensures Conserves(w, TryDispatch(w, i).value)
  {
    var q := w.pending[i];
    var w' := TryDispatch(w, i).value;
    if Quickest(w.fleet, q).Some? {
      var k := Quickest(w.fleet, q).value;
      var c := w.fleet[k];
      var c1 := c.AddFloor(q.origin).value;
      c.AddFloorKeeps(q.origin);
      c1.AddFloorKeeps(q.destination);
      assert w'.riders[|w.riders|..] == [w'.riders[|w.riders|]];
      assert (q.time * 10) / 10 == q.time;
      assert RequestsOf([w'.riders[|w.riders|]]) == [q];
      assert w.pending == w.pending[..i] + [q] + w.pending[i + 1..];
    } else {
      assert w'.riders[|w.riders|..] == [];
    }
  }

  /** So does the whole pass. */
  lemma {:induction false} DispatchDownConserves(w: World, n: nat)
    requires n <= |w.pending| && DispatchDown(w, n).Ok?
    ensures Conserves(w, DispatchDown(w, n).value)
    decreases n
  {
    if n == 0 {
      assert w.riders[|w.riders|..] == [];
    } else {
      var w1 := TryDispatch(w, n - 1).value;
      assert DispatchDown(w, n) == DispatchDown(w1, n - 1);
      TryDispatchConserves(w, n - 1);
      DispatchDownConserves(w1, n - 1);
      ConservesTransitive(w, w1, DispatchDown(w, n).value);
    }
  }

  ghost predicate NonDecreasing(rs: seq<Rider>) {
    forall a, b :: 0 <= a < b < |rs| ==> rs[a].requested <= rs[b].requested
  }

  ghost predicate RequestedFrom(rs: seq<Rider>, t: int) {
    forall a :: 0 <= a < |rs| ==> rs[a].requested >= t
  }

  lemma NonDecreasingCons(x: Rider, rs: seq<Rider>)
    requires NonDecreasing(rs) && RequestedFrom(rs, x.requested)
    ensures NonDecreasing([x] + rs)
  {
    var r := [x] + rs;
    forall a, b | 0 <= a < b < |r| ensures r[a].requested <= r[b].requested {
      assert r[b] == rs[b - 1];
      if a > 0 {
        assert r[a] == rs[a - 1];
      }
    }
  }

  lemma RequestedFromConcat(a: seq<Rider>, b: seq<Rider>, t: int)
    requires RequestedFrom(a, t) && RequestedFrom(b, t)
    ensures RequestedFrom(a + b, t)
  {
    forall i | 0 <= i < |a + b| ensures (a + b)[i].requested >= t {
      if i < |a| {
        assert (a + b)[i] == a[i];
      } else {
        assert (a + b)[i] == b[i - |a|];
      }
    }
  }

  /** The first attempt of a pass over `n` entries, at index `n - 1`: the records it adds. */
  lemma TryDispatchAdds(w: World, i: nat)
    requires i < |w.pending| && TryDispatch(w, i).Ok?
    ensures var w1 := TryDispatch(w, i).value;
      && Conserves(w, w1)
      && w1.pending[..i] == w.pending[..i]
      && (w1.riders == w.riders ||
          (|w1.riders| == |w.riders| + 1 && w1.riders[|w.riders|].requested == w.pending[i].time * 10))
  {
    TryDispatchConserves(w, i);
  }

  /** A pass over entries no earlier than `t` tenths creates records requested no earlier than `t`. */
  lemma {:induction false} DispatchDownFrom(w: World, n: nat, t: int)
    requires n <= |w.pending| && DispatchDown(w, n).Ok?
    requires forall j :: 0 <= j < n ==> w.pending[j].time * 10 >= t
    ensures Conserves(w, DispatchDown(w, n).value)
    ensures RequestedFrom(DispatchDown(w, n).value.riders[|w.riders|..], t)
    decreases n
  {
    DispatchDownConserves(w, n);
    if n == 0 {
      assert w.riders[|w.riders|..] == [];
    } else {
      var w1 := TryDispatch(w, n - 1).value;
      var w' := DispatchDown(w, n).value;
      assert w' == DispatchDown(w1, n - 1).value;
      TryDispatchAdds(w, n - 1);
      forall j | 0 <= j < n - 1 ensures w1.pending[j].time * 10 >= t {
        assert w1.pending[j] == w1.pending[..n - 1][j];
      }
      DispatchDownFrom(w1, n - 1, t);
      AddedSplit(w.riders, w1.riders, w'.riders);
      var first := w1.riders[|w.riders|..];
      if w1.riders == w.riders {
        assert first == [];
      } else {
        assert first == [w1.riders[|w.riders|]];
      }
      assert RequestedFrom(first, t);
      RequestedFromConcat(first, w'.riders[|w1.riders|..], t);
    }
  }

  /** What a descending prefix says about the shorter prefix left after the attempt at its end. */
  lemma SortedPrefixAfter(p: seq<Request>, p1: seq<Request>, n: nat)
    requires 0 < n <= |p| && n - 1 <= |p1| && p1[..n - 1] == p[..n - 1]
    requires SortedByTimeDesc(p[..n])
    ensures SortedByTimeDesc(p1[..n - 1])
    ensures forall j :: 0 <= j < n - 1 ==> p1[j].time * 10 >= p[n - 1].time * 10
  {
    assert p1[..n - 1] == p[..n][..n - 1];
    forall j | 0 <= j < n - 1 ensures p1[j].time * 10 >= p[n - 1].time * 10 {
      assert p1[j] == p[..n][j];
      assert p[..n][n - 1] == p[n - 1];
    }
  }

  /** Records added in two stages are in order when each stage is and the second starts no earlier. */
  lemma NonDecreasingStages(a: seq<Rider>, b: seq<Rider>, c: seq<Rider>, t: int)
    requires |a| <= |b| <= |c| && b[..|a|] == a && c[..|b|] == b
    requires b == a || (|b| == |a| + 1 && b[|a|].requested == t)
    requires NonDecreasing(c[|b|..]) && RequestedFrom(c[|b|..], t)
    ensures NonDecreasing(c[|a|..])
  {
    AddedSplit(a, b, c);
    if b != a {
      assert b[|a|..] == [b[|a|]];
      NonDecreasingCons(b[|a|], c[|b|..]);
    }
  }

  /**
   * Pending requests are attempted in non-decreasing time order when the
   * list is in descending order, so the records the pass creates carry
   * non-decreasing request times.
   */
  lemma {:induction false} DispatchDownInOrder(w: World, n: nat)
    requires n <= |w.pending| && DispatchDown(w, n).Ok?
    requires SortedByTimeDesc(w.pending[..n])
    ensures Conserves(w, DispatchDown(w, n).value)
    ensures NonDecreasing(DispatchDown(w, n).value.riders[|w.riders|..])
    decreases n
  {
    DispatchDownConserves(w, n);
    if n == 0 {
      assert w.riders[|w.riders|..] == [];
    } else {
      var w1 := TryDispatch(w, n - 1).value;
      var w' := DispatchDown(w, n).value;
      assert w' == DispatchDown(w1, n - 1).value;
      TryDispatchAdds(w, n - 1);
      var t := w.pending[n - 1].time * 10;
      SortedPrefixAfter(w.pending, w1.pending, n);
      DispatchDownInOrder(w1, n - 1);
      DispatchDownFrom(w1, n - 1, t);
      NonDecreasingStages(w.riders, w1.riders, w'.riders, t);
    }
  }

  /** One attempt keeps every cab valid. */
  lemma TryDispatchValid(w: World, i: nat)
    requires i < |w.pending| && TryDispatch(w, i).Ok? && FleetValid(w.fleet)
    ensures FleetValid(TryDispatch(w, i).value.fleet)
  {
    var q := w.pending[i];
    if Quickest(w.fleet, q).Some? {
      var k := Quickest(w.fleet, q).value;
      var c := w.fleet[k];
      c.AddFloorValid(q.origin);
      c.AddFloor(q.origin).value.AddFloorValid(q.destination);
    }
  }

  /** So does the pass. */
  lemma {:induction false} DispatchDownValid(w: World, n: nat)
    requires n <= |w.pending| && DispatchDown(w, n).Ok? && FleetValid(w.fleet)
    ensures FleetValid(DispatchDown(w, n).value.fleet)
    decreases n
  {
    if n > 0 {
      var w1 := TryDispatch(w, n - 1).value;
      assert DispatchDown(w, n) == DispatchDown(w1, n - 1);
      TryDispatchValid(w, n - 1);
      DispatchDownValid(w1, n - 1);
    }
  }

  /** Both floors of the request are within the cab's range. */
  predicate CabFits(c: Cab, q: Request) {
    0 <= q.origin <= c.totalFloors && 0 <= q.destination <= c.totalFloors
  }

  /** Both floors of the request are within range of every cab. */
  ghost predicate Fits(fleet: seq<Cab>, q: Request) {
    forall k :: 0 <= k < |fleet| ==> CabFits(fleet[k], q)
  }

  ghost predicate InRange(fleet: seq<Cab>, pending: seq<Request>) {
    forall j :: 0 <= j < |pending| ==> Fits(fleet, pending[j])
  }

  /** An attempt fails only on a floor a cab refuses, and never when the request's floors are in range. */
  lemma TryDispatchSucceeds(w: World, i: nat)
    requires i < |w.pending| && FleetValid(w.fleet)
    ensures TryDispatch(w, i).Err? ==> TryDispatch(w, i).error.InvalidFloorRequest?
    ensures InRange(w.fleet, w.pending[i..i + 1]) ==> TryDispatch(w, i).Ok?
  {
    var q := w.pending[i];
    assert w.pending[i..i + 1][0] == q;
    assert InRange(w.fleet, w.pending[i..i + 1]) ==> Fits(w.fleet, q);
    if Quickest(w.fleet, q).Some? {
      var k := Quickest(w.fleet, q).value;
      var c := w.fleet[k];
      c.AddFloorFails(q.origin);
      if c.AddFloor(q.origin).Ok? {
        c.AddFloorKeeps(q.origin);
        c.AddFloor(q.origin).value.AddFloorFails(q.destination);
      }
    }
  }

  lemma FitsSameCabs(fleet: seq<Cab>, fleet1: seq<Cab>, q: Request)
    requires SameCabs(fleet, fleet1) && Fits(fleet, q)
    ensures Fits(fleet1, q)
  {
    forall k | 0 <= k < |fleet1| ensures CabFits(fleet1[k], q) {
      assert CabFits(fleet[k], q);
      assert fleet1[k].totalFloors == fleet[k].totalFloors;
    }
  }

  lemma InRangeAfter(fleet: seq<Cab>, fleet1: seq<Cab>, p: seq<Request>, p1: seq<Request>, n: nat)
    requires 0 < n <= |p| && n - 1 <= |p1| && p1[..n - 1] == p[..n - 1]
    requires SameCabs(fleet, fleet1) && InRange(fleet, p[..n])
    ensures InRange(fleet, p[n - 1..n])
    ensures InRange(fleet1, p1[..n - 1])
  {
    assert p[n - 1..n][0] == p[..n][n - 1];
    var rest := p1[..n - 1];
    forall j | 0 <= j < |rest| ensures Fits(fleet1, rest[j]) {
      assert rest[j] == p[..n][j];
      assert Fits(fleet, p[..n][j]);
      FitsSameCabs(fleet, fleet1, rest[j]);
    }
  }

  /** The pass fails only on a refused floor, and never when all pending floors are in range. */
  lemma {:induction false} DispatchDownSucceeds(w: World, n: nat)
    requires n <= |w.pending| && FleetValid(w.fleet)
    ensures DispatchDown(w, n).Err? ==> DispatchDown(w, n).error.InvalidFloorRequest?
    ensures InRange(w.fleet, w.pending[..n]) ==> DispatchDown(w, n).Ok?
    decreases n
  {
    if n > 0 {
      TryDispatchSucceeds(w, n - 1);
      if TryDispatch(w, n - 1).Ok? {
        var w1 := TryDispatch(w, n - 1).value;
        assert DispatchDown(w, n) == DispatchDown(w1, n - 1);
        TryDispatchAdds(w, n - 1);
        TryDispatchValid(w, n - 1);
        DispatchDownSucceeds(w1, n - 1);
        if InRange(w.fleet, w.pending[..n]) {
          InRangeAfter(w.fleet, w1.fleet, w.pending, w1.pending, n);
        }
      } else {
        assert DispatchDown(w, n) == TryDispatch(w, n - 1);
        if InRange(w.fleet, w.pending[..n]) {
          InRangeAfter(w.fleet, w.fleet, w.pending, w.pending, n);
        }
      }
    }
  }

  /** One attempt keeps every record timely; old records only progress. */
  lemma TryDispatchTimely(w: World, i: nat)
    requires i < |w.pending| && TryDispatch(w, i).Ok? && Timely(w, w.clock)
    ensures Timely(TryDispatch(w, i).value, w.clock)
    ensures RidersProgress(w.riders, TryDispatch(w, i).value.riders)
  {
    var w1 := TryDispatch(w, i).value;
    var q := w.pending[i];
    if Quickest(w.fleet, q).Some? {
      assert w1.riders == w.riders + [NewRider(q.time * 10, q.origin, q.destination, w.fleet[Quickest(w.fleet, q).value].id)];
      assert w.pending == w.pending[..i] + [q] + w.pending[i + 1..];
      forall j | 0 <= j < |w1.pending| ensures 0 <= w1.pending[j].time * 10 <= w.clock {
        assert w1.pending[j] in w.pending;
      }
    }
  }

  /** So does the pass. */
  lemma {:induction false} DispatchDownTimely(w: World, n: nat)
    requires n <= |w.pending| && DispatchDown(w, n).Ok? && Timely(w, w.clock)
    ensures Timely(DispatchDown(w, n).value, w.clock)
    ensures RidersProgress(w.riders, DispatchDown(w, n).value.riders)
    decreases n
  {
    if n > 0 {
      var w1 := TryDispatch(w, n - 1).value;
      assert DispatchDown(w, n) == DispatchDown(w1, n - 1);
      TryDispatchTimely(w, n - 1);
      TryDispatchAdds(w, n - 1);
      DispatchDownTimely(w1, n - 1);
      RidersProgressTransitive(w.riders, w1.riders, DispatchDown(w, n).value.riders);
    }
  }
}
