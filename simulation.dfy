/**
 * One iteration of the controller's `execute` loop as a function of the
 * world, the run of iterations until the loop stops, and what the loop keeps
 * invariant.
 */
module Simulation {
  import opened Common
  import opened Passengers
  import opened Elevators
  import opened Requests
  import opened Worlds
  import opened Dispatch
  import opened Boarding

  /** Cab `k` offloads, then onboards, then ticks once. */
  function ServeOne(w: World, k: nat): (r: Result<World>)
    requires k < |w.fleet|
    ensures r.Ok? ==> |r.value.fleet| == |w.fleet|
  {
    match Offload(w, k)
    case Err(e) => Err(e)
    case Ok(w1) =>
      var w2 := Onboard(w1, k);
      Ok(w2.(fleet := w2.fleet[k := w2.fleet[k].Tick()]))
  }

  /** The `forEach` over the fleet, from cab `k` on, in list order. */
  function ServeFrom(w: World, k: nat): Result<World>
    requires k <= |w.fleet|
    decreases |w.fleet| - k
  {
    if k == |w.fleet| then Ok(w)
    else
      match ServeOne(w, k)
      case Err(e) => Err(e)
      case Ok(w1) => ServeFrom(w1, k + 1)
  }

  /** Serving cab `k` successfully, then the cabs after it. */
  lemma ServeFromStep(w: World, k: nat, w1: World)
    requires k < |w.fleet| && ServeOne(w, k) == Ok(w1)
    ensures ServeFrom(w, k) == ServeFrom(w1, k + 1)
  {
  }

  /** A failure while serving cab `k` ends the pass with that error. */
  lemma ServeFromStops(w: World, k: nat, e: Failure)
    requires k < |w.fleet| && ServeOne(w, k) == Err(e)
    ensures ServeFrom(w, k) == Err(e)
  {
  }

  /** The requests due now join those still pending, and the whole list is sorted by descending time. */
  function Ingest(raw: seq<Request>, w: World): World {
    w.(pending := SortByTimeDesc(Found(raw, w.clock) + w.pending))
  }

  /**
   * One iteration: ingest, dispatch, serve every cab, advance the clock by
   * one tenth of a second. An error is an exception leaving `execute`.
   */
  function Step(raw: seq<Request>, w: World): Result<World> {
    match DispatchAll(Ingest(raw, w))
    case Err(e) => Err(e)
    case Ok(w2) =>
      match ServeFrom(w2, 0)
      case Err(e) => Err(e)
      case Ok(w3) => Ok(w3.(clock := w3.clock + 1))
  }

  /** An iteration whose dispatch pass fails ends with that error. */
  lemma StepDispatchFails(raw: seq<Request>, w: World, e: Failure)
    requires DispatchAll(Ingest(raw, w)) == Err(e)
    ensures Step(raw, w) == Err(e)
  {
  }

  /** An iteration whose pass over the cabs fails ends with that error. */
  lemma StepServeFails(raw: seq<Request>, w: World, w2: World, e: Failure)
    requires DispatchAll(Ingest(raw, w)) == Ok(w2) && ServeFrom(w2, 0) == Err(e)
    ensures Step(raw, w) == Err(e)
  {
  }

  /** An iteration whose phases all succeed ends one tenth of a second later. */
  lemma StepSucceeds(raw: seq<Request>, w: World, w2: World, w3: World)
    requires DispatchAll(Ingest(raw, w)) == Ok(w2) && ServeFrom(w2, 0) == Ok(w3)
    ensures Step(raw, w) == Ok(w3.(clock := w3.clock + 1))
  {
  }

  /** A passenger has boarded but not yet completed the journey. */
  predicate OnBoard(r: Rider) {
    r.HasEntered() && !r.HasCompleted()
  }

  /** `hasIncompleteRequests`: a boarded passenger still travelling, a queued floor, or a pending request. */
  predicate HasIncompleteRequests(w: World) {
    || (exists i :: 0 <= i < |w.riders| && OnBoard(w.riders[i]))
    || (exists k :: 0 <= k < |w.fleet| && !w.fleet[k].IsDestinationQueueEmpty())
    || |w.pending| > 0
  }

  /**
   * The intended counterpart: any passenger whose journey is not complete,
   * boarded or not, a queued floor, or a pending request.
   */
  predicate HasIncompleteJourneys(w: World) {
    || (exists i :: 0 <= i < |w.riders| && !w.riders[i].HasCompleted())
    || (exists k :: 0 <= k < |w.fleet| && !w.fleet[k].IsDestinationQueueEmpty())
    || |w.pending| > 0
  }

  /** The loop condition as written: the strict comparison and boarded passengers only. */
  predicate StillRunningAsWritten(raw: seq<Request>, w: World) {
    HasEventsAfterAsWritten(raw, w.clock) || HasIncompleteRequests(w)
  }

  /** The intended loop condition: a request due now still counts, and so does every unfinished journey. */
  predicate StillRunning(raw: seq<Request>, w: World) {
    HasEventsAfter(raw, w.clock) || HasIncompleteJourneys(w)
  }

  /** Which of the two loop conditions `execute` evaluates after each iteration. */
  datatype LoopTest = AsWritten | Intended

  predicate Continues(test: LoopTest, raw: seq<Request>, w: World) {
    match test
    case AsWritten => StillRunningAsWritten(raw, w)
    case Intended => StillRunning(raw, w)
  }

  datatype Outcome = Finished | OutOfFuel | Crashed(error: Failure)

  /**
   * `execute` with at most `fuel` iterations: the first iteration always
   * happens; after each one the loop condition is evaluated on the new world.
   * A crash leaves the world as it was before the failing iteration.
   */
  function Run(test: LoopTest, raw: seq<Request>, w: World, fuel: nat): (World, Outcome)
    decreases fuel
  {
    if fuel == 0 then (w, OutOfFuel)
    else
      match Step(raw, w)
      case Err(e) => (w, Crashed(e))
      case Ok(w1) => if Continues(test, raw, w1) then Run(test, raw, w1, fuel - 1) else (w1, Finished)
  }

  /**
   * The invariant of the loop, between iterations: every cab is valid,
   * every record and pending request lies before the clock, and the
   * requests that have fallen due are exactly those still pending together
   * with those that have a passenger record.
   */
  ghost predicate Consistent(raw: seq<Request>, w: World) {
    && FleetValid(w.fleet)
    && Timely(w, w.clock - 1)
    && multiset(w.pending) + multiset(RequestsOf(w.riders)) == multiset(Ingested(raw, w.clock))
  }

  /** The world before the first iteration. */
  function Initial(fleet: seq<Cab>): World {
    World(fleet, [], [], 0)
  }

  lemma InitialConsistent(raw: seq<Request>, fleet: seq<Cab>)
    requires FleetValid(fleet)
    ensures Consistent(raw, Initial(fleet))
  {
    NothingIngestedAtStart(raw);
  }

  /** Every request counted by the invariant is due by now and comes from the raw list. */
  lemma ConsistentCounts(raw: seq<Request>, w: World)
    requires Consistent(raw, w)
    ensures |w.riders| + |w.pending| == |Ingested(raw, w.clock)|
    ensures forall q :: q in w.pending ==> q in raw
  {
    assert |multiset(w.pending) + multiset(RequestsOf(w.riders))| == |multiset(Ingested(raw, w.clock))|;
    forall q | q in w.pending ensures q in raw {
      assert q in multiset(w.pending);
      assert q in multiset(Ingested(raw, w.clock));
    }
  }

  lemma TimelyNoZeroExit(w: World, now: int)
    requires Timely(w, now)
    ensures NoZeroExit(w.riders)
  {
    forall i | 0 <= i < |w.riders| && w.riders[i].HasCompleted() ensures w.riders[i].exited.value != 0 {
      assert RiderTimely(w.riders[i], now);
    }
  }

  /**
   * Serving one cab: only that cab changes, and it is ticked exactly once,
   * after dropping its floor if someone alighted. The records stay timely
   * and only progress; pending requests and the clock are untouched.
   */
  lemma ServeOneSpec(w: World, k: nat)
    requires k < |w.fleet| && ServeOne(w, k).Ok? && Timely(w, w.clock) && FleetValid(w.fleet)
    ensures var w', c := ServeOne(w, k).value, w.fleet[k];
      && w'.fleet == w.fleet[k := (if c.IsAtFloor() && AnyAlights(w.riders, c) then c.RemoveCurrentFloor() else c).Tick()]
      && Timely(w', w.clock)
      && RidersProgress(w.riders, w'.riders) && |w'.riders| == |w.riders|
      && FleetValid(w'.fleet) && SameCabs(w.fleet, w'.fleet)
      && w'.pending == w.pending && w'.clock == w.clock
  {
    var w1 := Offload(w, k).value;
    OffloadSpec(w, k);
    OffloadTimely(w, k);
    var w2 := Onboard(w1, k);
    OnboardTimely(w1, k);
    RidersProgressTransitive(w.riders, w1.riders, w2.riders);
    TickOnePreserves(w2, k);
    assert ServeOne(w, k).value == w2.(fleet := w2.fleet[k := w2.fleet[k].Tick()]);
  }

  /** Ticking cab `k` keeps the fleet's cabs and their validity. */
  lemma TickOnePreserves(w: World, k: nat)
    requires k < |w.fleet| && FleetValid(w.fleet)
    ensures var fleet := w.fleet[k := w.fleet[k].Tick()];
      FleetValid(fleet) && SameCabs(w.fleet, fleet)
  {
    TickValid(w.fleet[k]);
  }

  /** Serving the cabs from `k` on keeps the same properties. */
  lemma {:induction false} ServeFromPreserves(w: World, k: nat)
    requires k <= |w.fleet| && ServeFrom(w, k).Ok? && Timely(w, w.clock) && FleetValid(w.fleet)
    ensures var w' := ServeFrom(w, k).value;
      && Timely(w', w.clock)
      && RidersProgress(w.riders, w'.riders) && |w'.riders| == |w.riders|
      && FleetValid(w'.fleet) && SameCabs(w.fleet, w'.fleet)
      && w'.fleet[..k] == w.fleet[..k]
      && w'.pending == w.pending && w'.clock == w.clock
    decreases |w.fleet| - k
  {
    if k < |w.fleet| {
      var w1 := ServeOne(w, k).value;
      assert ServeFrom(w, k) == ServeFrom(w1, k + 1);
      ServeOneSpec(w, k);
      ServeFromPreserves(w1, k + 1);
      RidersProgressTransitive(w.riders, w1.riders, ServeFrom(w, k).value.riders);
      assert w1.fleet[..k] == w.fleet[..k];
      assert ServeFrom(w, k).value.fleet[..k] == ServeFrom(w, k).value.fleet[..k + 1][..k];
    }
  }

  /** With a clock past 0 and timely records, serving the cabs cannot fail. */
  lemma {:induction false} ServeFromSucceeds(w: World, k: nat)
    requires k <= |w.fleet| && Timely(w, w.clock) && FleetValid(w.fleet) && w.clock > 0
    ensures ServeFrom(w, k).Ok?
    decreases |w.fleet| - k
  {
    if k < |w.fleet| {
      TimelyNoZeroExit(w, w.clock);
      OffloadFails(w, k);
      var w1 := ServeOne(w, k).value;
      ServeOneSpec(w, k);
      ServeFromSucceeds(w1, k + 1);
    }
  }

  /** Any failure while serving is an exit time of 0 being read as missing. */
  lemma {:induction false} ServeFromError(w: World, k: nat)
    requires k <= |w.fleet| && Timely(w, w.clock) && FleetValid(w.fleet)
    ensures ServeFrom(w, k).Err? ==> ServeFrom(w, k).error == NotYetExited
    decreases |w.fleet| - k
  {
    if k < |w.fleet| {
      TimelyNoZeroExit(w, w.clock);
      OffloadFails(w, k);
      if ServeOne(w, k).Ok? {
        ServeOneSpec(w, k);
        ServeFromError(ServeOne(w, k).value, k + 1);
      }
    }
  }

  /** Ingesting keeps every record timely and adds exactly the requests due now. */
  lemma IngestSpec(raw: seq<Request>, w: World)
    requires Timely(w, w.clock - 1)
    ensures var w1 := Ingest(raw, w);
      && Timely(w1, w.clock)
      && |w1.pending| == |Found(raw, w.clock)| + |w.pending|
      && multiset(w1.pending) == multiset(Found(raw, w.clock)) + multiset(w.pending)
      && SortedByTimeDesc(w1.pending)
      && w1.riders == w.riders && w1.fleet == w.fleet && w1.clock == w.clock
  {
    var found := Found(raw, w.clock);
    var w1 := Ingest(raw, w);
    assert w1 == w.(pending := SortByTimeDesc(found + w.pending));
    SortByTimeDescSpec(found + w.pending);
    TimelyLater(w, w.clock - 1, w.clock);
    assert |multiset(w1.pending)| == |multiset(found + w.pending)|;
    forall q | q in found + w.pending ensures 0 <= q.time * 10 <= w.clock {
      if q !in found {
        assert q in w.pending;
      }
    }
    DueByPermutation(found + w.pending, w1.pending, w.clock);
  }

  /** A permutation of requests all due by `now` holds only requests due by `now`. */
  lemma DueByPermutation(s: seq<Request>, t: seq<Request>, now: int)
    requires multiset(s) == multiset(t)
    requires forall q :: q in s ==> 0 <= q.time * 10 <= now
    ensures forall i :: 0 <= i < |t| ==> 0 <= t[i].time * 10 <= now
  {
    forall i | 0 <= i < |t| ensures 0 <= t[i].time * 10 <= now {
      assert t[i] in multiset(t);
      assert t[i] in s;
    }
  }

  /**
   * The invariant inside an iteration at clock `now`, once the requests due
   * now have been ingested.
   */
  ghost predicate MidStep(raw: seq<Request>, w: World, now: nat) {
    && FleetValid(w.fleet)
    && Timely(w, now)
    && multiset(w.pending) + multiset(RequestsOf(w.riders)) == multiset(Ingested(raw, now + 1))
    && w.clock == now
  }

  lemma IngestMid(raw: seq<Request>, w: World)
    requires Consistent(raw, w)
    ensures MidStep(raw, Ingest(raw, w), w.clock)
  {
    IngestSpec(raw, w);
    IngestCounts(raw, w);
  }

  /** Ingesting moves the requests due now from the raw list into the pending list. */
  lemma IngestCounts(raw: seq<Request>, w: World)
    requires multiset(w.pending) + multiset(RequestsOf(w.riders)) == multiset(Ingested(raw, w.clock))
    ensures multiset(Ingest(raw, w).pending) + multiset(RequestsOf(Ingest(raw, w).riders)) == multiset(Ingested(raw, w.clock + 1))
  {
    var w1 := Ingest(raw, w);
    SortByTimeDescSpec(Found(raw, w.clock) + w.pending);
    IngestedGrows(raw, w.clock);
    var found, before := multiset(Found(raw, w.clock)), multiset(Ingested(raw, w.clock));
    assert multiset(w1.pending) == found + multiset(w.pending);
    MultisetRegroup(found, multiset(w.pending), multiset(RequestsOf(w.riders)));
  }

  lemma MultisetRegroup(a: multiset<Request>, b: multiset<Request>, c: multiset<Request>)
    ensures (a + b) + c == a + (b + c)
  {
  }

  lemma DispatchMid(raw: seq<Request>, w: World, now: nat)
    requires MidStep(raw, w, now) && DispatchAll(w).Ok?
    ensures MidStep(raw, DispatchAll(w).value, now)
    ensures RidersProgress(w.riders, DispatchAll(w).value.riders)
    ensures SameCabs(w.fleet, DispatchAll(w).value.fleet)
  {
    DispatchDownConserves(w, |w.pending|);
    DispatchDownTimely(w, |w.pending|);
    DispatchDownValid(w, |w.pending|);
    ConservesRequests(w, DispatchAll(w).value, multiset(Ingested(raw, now + 1)));
  }

  /** A conserving change keeps the pending requests and the records' requests together. */
  lemma ConservesRequests(a: World, b: World, m: multiset<Request>)
    requires Conserves(a, b) && multiset(a.pending) + multiset(RequestsOf(a.riders)) == m
    ensures multiset(b.pending) + multiset(RequestsOf(b.riders)) == m
  {
    var added := b.riders[|a.riders|..];
    assert b.riders == a.riders + added;
    RequestsOfAppend(a.riders, added);
    MultisetShift(multiset(b.pending), multiset(RequestsOf(a.riders)), multiset(RequestsOf(added)), multiset(a.pending), m);
  }

  lemma MultisetShift(p: multiset<Request>, r: multiset<Request>, n: multiset<Request>, a: multiset<Request>, m: multiset<Request>)
    requires p + n == a && a + r == m
    ensures p + (r + n) == m
  {
  }

  lemma RequestsOfProgress(a: seq<Rider>, b: seq<Rider>)
    requires RidersProgress(a, b) && |a| == |b|
    ensures RequestsOf(a) == RequestsOf(b)
  {
    forall i | 0 <= i < |a| ensures Requested(a[i]) == Requested(b[i]) {
      assert RiderProgresses(a[i], b[i]);
    }
  }

  lemma ServeMid(raw: seq<Request>, w: World, now: nat)
    requires MidStep(raw, w, now) && ServeFrom(w, 0).Ok?
    ensures MidStep(raw, ServeFrom(w, 0).value, now)
    ensures RidersProgress(w.riders, ServeFrom(w, 0).value.riders)
    ensures SameCabs(w.fleet, ServeFrom(w, 0).value.fleet)
  {
    ServeFromPreserves(w, 0);
    RequestsOfProgress(w.riders, ServeFrom(w, 0).value.riders);
  }

  /** Advancing the clock at the end of an iteration restores the invariant between iterations. */
  lemma CloseStep(raw: seq<Request>, w: World, now: nat)
    requires MidStep(raw, w, now)
    ensures Consistent(raw, w.(clock := now + 1))
  {
  }

  lemma SameCabsTransitive(a: seq<Cab>, b: seq<Cab>, c: seq<Cab>)
    requires SameCabs(a, b) && SameCabs(b, c)
    ensures SameCabs(a, c)
  {
  }

  /** The phases of one iteration, each named by its result. */
  lemma PhasesConsistent(raw: seq<Request>, w: World, w2: World, w3: World)
    requires Consistent(raw, w)
    requires DispatchAll(Ingest(raw, w)) == Ok(w2) && ServeFrom(w2, 0) == Ok(w3)
    ensures w3.clock == w.clock
    ensures Consistent(raw, w3.(clock := w.clock + 1))
    ensures SameCabs(w.fleet, w3.fleet) && RidersProgress(w.riders, w3.riders)
  {
    var w1 := Ingest(raw, w);
    assert w1.fleet == w.fleet && w1.riders == w.riders;
    IngestMid(raw, w);
    ServedMid(raw, w1, w2, w3, w.clock);
    CloseStep(raw, w3, w.clock);
  }

  /** Dispatching, then serving the cabs, keeps the invariant inside an iteration. */
  lemma ServedMid(raw: seq<Request>, w1: World, w2: World, w3: World, now: nat)
    requires MidStep(raw, w1, now)
    requires DispatchAll(w1) == Ok(w2) && ServeFrom(w2, 0) == Ok(w3)
    ensures MidStep(raw, w3, now)
    ensures SameCabs(w1.fleet, w3.fleet) && RidersProgress(w1.riders, w3.riders)
  {
    DispatchMid(raw, w1, now);
    ServeMid(raw, w2, now);
    RidersProgressTransitive(w1.riders, w2.riders, w3.riders);
    SameCabsTransitive(w1.fleet, w2.fleet, w3.fleet);
  }

  /**
   * One iteration keeps the invariant, advances the clock by exactly one,
   * keeps the fleet's cabs, and lets every record only progress.
   */
  lemma {:induction false} StepConsistent(raw: seq<Request>, w: World)
    requires Consistent(raw, w) && Step(raw, w).Ok?
    ensures var w' := Step(raw, w).value;
      && Consistent(raw, w')
      && w'.clock == w.clock + 1
      && SameCabs(w.fleet, w'.fleet)
      && RidersProgress(w.riders, w'.riders)
  {
    var w2 := DispatchAll(Ingest(raw, w)).value;
    var w3 := ServeFrom(w2, 0).value;
    PhasesConsistent(raw, w, w2, w3);
    var w' := Step(raw, w).value;
    assert w' == w3.(clock := w.clock + 1);
    assert Consistent(raw, w');
  }

  /**
   * An iteration fails only on a floor out of a cab's range, or on the
   * getter reading the exit time 0 at clock 0. Requests within range of
   * every cab never fail an iteration after the first.
   */
  lemma StepFails(raw: seq<Request>, w: World)
    requires Consistent(raw, w)
    ensures Step(raw, w).Err? ==>
      Step(raw, w).error.InvalidFloorRequest? || (w.clock == 0 && Step(raw, w).error == NotYetExited)
    ensures InRange(w.fleet, raw) && w.clock > 0 ==> Step(raw, w).Ok?
  {
    var w1 := Ingest(raw, w);
    IngestMid(raw, w);
    DispatchDownSucceeds(w1, |w1.pending|);
    if InRange(w.fleet, raw) {
      IngestInRange(raw, w);
    }
    match DispatchAll(w1)
    case Err(e) =>
      StepDispatchFails(raw, w, e);
    case Ok(w2) =>
      DispatchMid(raw, w1, w.clock);
      ServeFromError(w2, 0);
      if w.clock > 0 {
        ServeFromSucceeds(w2, 0);
      }
      match ServeFrom(w2, 0)
      case Err(e) =>
        StepServeFails(raw, w, w2, e);
      case Ok(w3) =>
        StepSucceeds(raw, w, w2, w3);
  }

  /** Requests within range of every cab leave the ingested pending list within range. */
  lemma IngestInRange(raw: seq<Request>, w: World)
    requires Consistent(raw, w) && InRange(w.fleet, raw)
    ensures var w1 := Ingest(raw, w); InRange(w1.fleet, w1.pending[..|w1.pending|])
  {
    var w1 := Ingest(raw, w);
    IngestSpec(raw, w);
    ConsistentCounts(raw, w);
    assert w1.pending[..|w1.pending|] == w1.pending;
    forall j | 0 <= j < |w1.pending| ensures Fits(w1.fleet, w1.pending[j]) {
      assert w1.pending[j] in multiset(Found(raw, w.clock) + w.pending);
      assert w1.pending[j] in Found(raw, w.clock) + w.pending;
      assert w1.pending[j] in raw;
    }
  }

  lemma SameCabsReflexive(a: seq<Cab>)
    ensures SameCabs(a, a)
  {
  }

  lemma RidersProgressReflexive(a: seq<Rider>)
    ensures RidersProgress(a, a)
  {
  }

  /**
   * The loop's invariant at `w` together with what has held since `w0`:
   * the clock has not gone back, the cabs are the same, and every record has
   * only progressed.
   */
  ghost predicate Since(raw: seq<Request>, w0: World, w: World) {
    && Consistent(raw, w)
    && w.clock >= w0.clock
    && SameCabs(w0.fleet, w.fleet)
    && RidersProgress(w0.riders, w.riders)
  }

  lemma StepSince(raw: seq<Request>, w0: World, w: World)
    requires Since(raw, w0, w) && Step(raw, w).Ok?
    ensures Since(raw, w0, Step(raw, w).value)
  {
    StepConsistent(raw, w);
    var w1 := Step(raw, w).value;
    SameCabsTransitive(w0.fleet, w.fleet, w1.fleet);
    RidersProgressTransitive(w0.riders, w.riders, w1.riders);
  }

  /** The first iteration of a run that goes on. */
  lemma RunGoesOn(test: LoopTest, raw: seq<Request>, w: World, w1: World, fuel: nat)
    requires fuel > 0 && Step(raw, w) == Ok(w1) && Continues(test, raw, w1)
    ensures Run(test, raw, w, fuel) == Run(test, raw, w1, fuel - 1)
  {
  }

  /** The first iteration of a run that stops there. */
  lemma RunEndsAfter(test: LoopTest, raw: seq<Request>, w: World, w1: World, fuel: nat)
    requires fuel > 0 && Step(raw, w) == Ok(w1) && !Continues(test, raw, w1)
    ensures Run(test, raw, w, fuel) == (w1, Finished)
  {
  }

  /** A first iteration that fails ends the run. */
  lemma RunCrashes(test: LoopTest, raw: seq<Request>, w: World, e: Failure, fuel: nat)
    requires fuel > 0 && Step(raw, w) == Err(e)
    ensures Run(test, raw, w, fuel) == (w, Crashed(e))
  {
  }

  /**
   * Induction over a run: what has held since `w0` still holds of the world
   * the run ends on, whatever the outcome (after a crash, the world before
   * the failing iteration).
   */
  lemma {:induction false} RunSince(test: LoopTest, raw: seq<Request>, w0: World, w: World, fuel: nat)
    requires Since(raw, w0, w)
    ensures Since(raw, w0, Run(test, raw, w, fuel).0)
  {
    var P := (x: World) => Since(raw, w0, x);
    forall x | P(x) && Step(raw, x).Ok? ensures P(Step(raw, x).value) {
      StepSince(raw, w0, x);
    }
    RunKeeps(test, raw, P, w, fuel);
  }

  /** `P` holds after every successful iteration from a world where it holds. */
  ghost predicate StepKeeps(raw: seq<Request>, P: World -> bool) {
    forall w :: P(w) && Step(raw, w).Ok? ==> P(Step(raw, w).value)
  }

  /** A property every iteration keeps holds of the world a run ends on. */
  lemma {:induction false} RunKeeps(test: LoopTest, raw: seq<Request>, P: World -> bool, w: World, fuel: nat)
    requires StepKeeps(raw, P) && P(w)
    ensures P(Run(test, raw, w, fuel).0)
    decreases fuel
  {
    if fuel > 0 {
      var r := Step(raw, w);
      if r.Err? {
        RunCrashes(test, raw, w, r.error, fuel);
      } else {
        assert P(r.value);
        RunKeepsNext(test, raw, P, w, r.value, fuel);
      }
    }
  }

  lemma {:induction false} RunKeepsNext(test: LoopTest, raw: seq<Request>, P: World -> bool, w: World, w1: World, fuel: nat)
    requires StepKeeps(raw, P) && fuel > 0 && Step(raw, w) == Ok(w1) && P(w1)
    ensures P(Run(test, raw, w, fuel).0)
    decreases fuel, 0
  {
    if Continues(test, raw, w1) {
      var rest := Run(test, raw, w1, fuel - 1);
      RunKeeps(test, raw, P, w1, fuel - 1);
      assert Run(test, raw, w, fuel) == rest by {
        RunGoesOn(test, raw, w, w1, fuel);
      }
    } else {
      RunEndsAfter(test, raw, w, w1, fuel);
    }
  }

  /**
   * A run keeps the invariant whatever its loop test and its outcome, never
   * turns the clock back, keeps the fleet's cabs and lets every record only
   * progress.
   */
  lemma RunConsistent(test: LoopTest, raw: seq<Request>, w: World, fuel: nat)
    requires Consistent(raw, w)
    ensures Consistent(raw, Run(test, raw, w, fuel).0)
    ensures Run(test, raw, w, fuel).0.clock >= w.clock
    ensures SameCabs(w.fleet, Run(test, raw, w, fuel).0.fleet)
    ensures RidersProgress(w.riders, Run(test, raw, w, fuel).0.riders)
  {
    SameCabsReflexive(w.fleet);
    RidersProgressReflexive(w.riders);
    RunSince(test, raw, w, w, fuel);
  }

  /** A run that finishes ends on a world where its loop condition fails. */
  lemma {:induction false} FinishedStops(test: LoopTest, raw: seq<Request>, w: World, fuel: nat)
    requires Run(test, raw, w, fuel).1 == Finished
    ensures !Continues(test, raw, Run(test, raw, w, fuel).0)
    decreases fuel
  {
    if fuel > 0 {
      match Step(raw, w)
      case Err(e) =>
        RunCrashes(test, raw, w, e, fuel);
      case Ok(w1) =>
        if Continues(test, raw, w1) {
          RunGoesOn(test, raw, w, w1, fuel);
          FinishedStops(test, raw, w1, fuel - 1);
        } else {
          RunEndsAfter(test, raw, w, w1, fuel);
        }
    }
  }

  /**
   * When the intended loop condition fails on a consistent world and the raw
   * requests are in time order, every request has been served out of the
   * pending list: nothing is pending, no cab has a queued floor, every
   * passenger has completed the journey, and the records are exactly the raw
   * requests with a time of 0 or more.
   */
  lemma Quiescent(raw: seq<Request>, w: World)
    requires Consistent(raw, w) && SortedByTime(raw) && !StillRunning(raw, w)
    ensures w.pending == []
    ensures forall k :: 0 <= k < |w.fleet| ==> w.fleet[k].IsDestinationQueueEmpty()
    ensures forall i :: 0 <= i < |w.riders| ==> w.riders[i].HasCompleted()
    ensures multiset(RequestsOf(w.riders)) == multiset(NonNegative(raw))
  {
    NoEventsAfter(raw, w.clock);
    IngestedAll(raw, w.clock);
  }

  /**
   * A finished run of the intended loop from a consistent world leaves it
   * quiescent: every request has a record and every journey is complete.
   */
  lemma RunFinished(raw: seq<Request>, w: World, fuel: nat)
    requires Consistent(raw, w) && SortedByTime(raw) && Run(Intended, raw, w, fuel).1 == Finished
    ensures var w' := Run(Intended, raw, w, fuel).0;
      && w'.pending == []
      && (forall k :: 0 <= k < |w'.fleet| ==> w'.fleet[k].IsDestinationQueueEmpty())
      && (forall i :: 0 <= i < |w'.riders| ==> w'.riders[i].HasCompleted())
      && multiset(RequestsOf(w'.riders)) == multiset(NonNegative(raw))
  {
    RunConsistent(Intended, raw, w, fuel);
    FinishedStops(Intended, raw, w, fuel);
    Quiescent(raw, Run(Intended, raw, w, fuel).0);
  }

  /** A single request, due at 1 second, from floor 3 to floor 4. */
  function LateRequest(): seq<Request> {
    [Request(1, 3, 4)]
  }

  /** One cab parked at the ground floor of a five-floor building, nothing else, at `clock`. */
  function Quiet(clock: nat): World {
    World([Parked(0, 0, 6, 4)], [], [], clock)
  }

  /** Before the request falls due, an iteration only advances the clock. */
  lemma QuietStep(clock: nat)
    requires clock < 10
    ensures Step(LateRequest(), Quiet(clock)) == Ok(Quiet(clock + 1))
  {
    var w := Quiet(clock);
    assert Found(LateRequest(), clock) == [];
    assert Ingest(LateRequest(), w) == w;
    assert DispatchAll(w) == Ok(w);
    assert Offload(w, 0) == Ok(w);
    assert Onboard(w, 0) == w;
    assert w.fleet[0].Tick() == w.fleet[0];
    assert w.fleet[0 := w.fleet[0]] == w.fleet;
    assert ServeOne(w, 0) == Ok(w);
    assert ServeFrom(w, 0) == ServeFrom(w, 1);
  }

  lemma {:induction false} QuietRunAsWritten(clock: nat, fuel: nat)
    requires clock < 10 && fuel >= 10 - clock
    ensures Run(AsWritten, LateRequest(), Quiet(clock), fuel) == (Quiet(10), Finished)
    decreases 10 - clock
  {
    QuietStep(clock);
    if clock < 9 {
      assert StillRunningAsWritten(LateRequest(), Quiet(clock + 1));
      QuietRunAsWritten(clock + 1, fuel - 1);
    } else {
      assert !StillRunningAsWritten(LateRequest(), Quiet(10));
    }
  }

  /**
   * The strict comparison ends the loop as written at clock 10, with no
   * passenger record, although the only request falls due exactly then and
   * the intended loop condition still holds.
   */
  lemma AsWrittenDropsLastRequest(fuel: nat)
    requires fuel >= 10
    ensures Run(AsWritten, LateRequest(), Initial(Quiet(0).fleet), fuel) == (Quiet(10), Finished)
    ensures Quiet(10).riders == [] && Found(LateRequest(), 10) == LateRequest()
    ensures StillRunning(LateRequest(), Quiet(10))
  {
    QuietRunAsWritten(0, fuel);
  }
}
