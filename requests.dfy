/**
 * Raw passenger requests and the controller's per-tick view of them: which
 * requests fall due at a clock value, how pending requests are ordered, and
 * whether any request lies ahead of the clock.
 */
module Requests {
  /**
   * A request `[time, origin, destination]`; `time` is in whole seconds while
   * the clock counts tenths of a second.
   */
  datatype Request = Request(time: int, origin: int, destination: int)

  /** The request falls due exactly at `clock` (tenths of a second). */
  predicate DueAt(q: Request, clock: int) {
    q.time * 10 == clock
  }

  /** `findEventAtTime`: the raw requests due at `clock`, in their original order. */
  function Found(raw: seq<Request>, clock: int): (r: seq<Request>)
    ensures forall q :: q in r <==> q in raw && DueAt(q, clock)
    ensures |r| <= |raw|
  {
    if raw == [] then []
    else (if DueAt(raw[0], clock) then [raw[0]] else []) + Found(raw[1..], clock)
  }

  /** Each due request is found as often as it occurs, and no other request is. */
  lemma {:induction false} FoundCounts(raw: seq<Request>, clock: int)
    ensures forall q :: multiset(Found(raw, clock))[q] == if DueAt(q, clock) then multiset(raw)[q] else 0
  {
    if raw != [] {
      FoundCounts(raw[1..], clock);
      assert raw == [raw[0]] + raw[1..];
    }
  }

  /** Found keeps the original relative order: it is a subsequence of the input. */
  ghost predicate SubsequenceOf(a: seq<Request>, b: seq<Request>)
    decreases |b|
  {
    a == [] || (b != [] && ((a[0] == b[0] && SubsequenceOf(a[1..], b[1..])) || SubsequenceOf(a, b[1..])))
  }

  lemma {:induction false} FoundIsSubsequence(raw: seq<Request>, clock: int)
    ensures SubsequenceOf(Found(raw, clock), raw)
  {
    if raw != [] {
      FoundIsSubsequence(raw[1..], clock);
      var rest := Found(raw[1..], clock);
      if DueAt(raw[0], clock) {
        assert Found(raw, clock) == [raw[0]] + rest;
        var a := [raw[0]] + rest;
        assert a[0] == raw[0] && a[1..] == rest;
        assert SubsequenceOf(a[1..], raw[1..]);
      } else {
        assert Found(raw, clock) == rest;
      }
    }
  }

  /** The requests that have fallen due strictly before `clock` and at no negative time. */
  function Ingested(raw: seq<Request>, clock: int): (r: seq<Request>)
    ensures forall q :: q in r <==> q in raw && 0 <= q.time * 10 < clock
  {
    if raw == [] then []
    else (if 0 <= raw[0].time * 10 < clock then [raw[0]] else []) + Ingested(raw[1..], clock)
  }

  /** One more tick ingests exactly the requests found at the old clock. */
  lemma {:induction false} IngestedGrows(raw: seq<Request>, clock: nat)
    ensures multiset(Ingested(raw, clock + 1)) == multiset(Ingested(raw, clock)) + multiset(Found(raw, clock))
  {
    if raw != [] {
      IngestedGrows(raw[1..], clock);
    }
  }

  /** Before the clock starts nothing has been ingested. */
  lemma NothingIngestedAtStart(raw: seq<Request>)
    ensures Ingested(raw, 0) == []
  {
    if raw != [] {
      NothingIngestedAtStart(raw[1..]);
    }
  }

  /** Once the clock is past every request, every request of non-negative time is ingested. */
  lemma {:induction false} IngestedAll(raw: seq<Request>, clock: int)
    requires forall i :: 0 <= i < |raw| ==> raw[i].time * 10 < clock
    ensures Ingested(raw, clock) == NonNegative(raw)
  {
    if raw != [] {
      IngestedAll(raw[1..], clock);
    }
  }

  /** The requests with a non-negative time. */
  function NonNegative(raw: seq<Request>): (r: seq<Request>)
    ensures forall q :: q in r <==> q in raw && 0 <= q.time
  {
    if raw == [] then []
    else (if 0 <= raw[0].time then [raw[0]] else []) + NonNegative(raw[1..])
  }

  ghost predicate SortedByTime(raw: seq<Request>) {
    forall i, j :: 0 <= i < j < |raw| ==> raw[i].time <= raw[j].time
  }

  /**
   * There is a request still ahead of the clock, judged by the last raw
   * request only (the raw list is meant to be in time order). As written the
   * comparison is strict, so a last request due exactly at the new clock
   * does not count.
   */
  predicate HasEventsAfterAsWritten(raw: seq<Request>, clock: int) {
    |raw| > 0 && raw[|raw| - 1].time * 10 > clock
  }

  /** The intended test: the last request has not yet been ingested. */
  predicate HasEventsAfter(raw: seq<Request>, clock: int) {
    |raw| > 0 && raw[|raw| - 1].time * 10 >= clock
  }

  /** With raw requests in time order, no event ahead means every request is behind the clock. */
  lemma NoEventsAfter(raw: seq<Request>, clock: int)
    requires SortedByTime(raw) && !HasEventsAfter(raw, clock)
    ensures forall i :: 0 <= i < |raw| ==> raw[i].time * 10 < clock
  {
    forall i | 0 <= i < |raw| ensures raw[i].time * 10 < clock {
      assert raw[i].time <= raw[|raw| - 1].time;
    }
  }

  /** The two tests differ exactly when the last request falls due at `clock`. */
  lemma EventsAfterDiffer(raw: seq<Request>, clock: int)
    ensures HasEventsAfter(raw, clock) != HasEventsAfterAsWritten(raw, clock) <==>
      |raw| > 0 && DueAt(raw[|raw| - 1], clock)
  {
  }

  /** Descending time order, as `sort((a, b) => b[0] - a[0])` leaves the pending list. */
  ghost predicate SortedByTimeDesc(s: seq<Request>) {
    forall i, j :: 0 <= i < j < |s| ==> s[i].time >= s[j].time
  }

  /** Inserts `x` before the first request that is not later than it. */
  function InsertByTime(x: Request, s: seq<Request>): seq<Request> {
    if s == [] || x.time >= s[0].time then [x] + s
    else [s[0]] + InsertByTime(x, s[1..])
  }

  /**
   * The pending list's descending sort. Insertion from the back places each
   * request before the later-listed ones of equal time, so the order of
   * equal times is kept, as with JavaScript's stable sort.
   */
  function SortByTimeDesc(s: seq<Request>): seq<Request> {
    if s == [] then [] else InsertByTime(s[0], SortByTimeDesc(s[1..]))
  }

  lemma {:induction false} InsertByTimeMultiset(x: Request, s: seq<Request>)
    ensures multiset(InsertByTime(x, s)) == multiset(s) + multiset{x}
  {
    if s != [] && x.time < s[0].time {
      InsertByTimeMultiset(x, s[1..]);
      assert s == [s[0]] + s[1..];
    }
  }

  lemma SortedDescCons(h: Request, t: seq<Request>)
    requires SortedByTimeDesc(t)
    requires forall y :: y in t ==> h.time >= y.time
    ensures SortedByTimeDesc([h] + t)
  {
    var r := [h] + t;
    forall i, j | 0 <= i < j < |r| ensures r[i].time >= r[j].time {
      assert r[j] == t[j - 1];
      if i > 0 {
        assert r[i] == t[i - 1];
      }
    }
  }

  lemma SortedDescTail(s: seq<Request>)
    requires s != [] && SortedByTimeDesc(s)
    ensures SortedByTimeDesc(s[1..])
    ensures forall y :: y in s[1..] ==> s[0].time >= y.time
  {
    forall i, j | 0 <= i < j < |s[1..]| ensures s[1..][i].time >= s[1..][j].time {
      assert s[1..][i] == s[i + 1] && s[1..][j] == s[j + 1];
    }
  }

  lemma {:induction false} InsertByTimeSorted(x: Request, s: seq<Request>)
    requires SortedByTimeDesc(s)
    ensures SortedByTimeDesc(InsertByTime(x, s))
  {
    if s == [] || x.time >= s[0].time {
      if s != [] {
        SortedDescTail(s);
      }
      SortedDescCons(x, s);
    } else {
      var t := InsertByTime(x, s[1..]);
      SortedDescTail(s);
      InsertByTimeSorted(x, s[1..]);
      InsertByTimeMultiset(x, s[1..]);
      forall y | y in t ensures s[0].time >= y.time {
        assert y in multiset(t);
        if y != x {
          assert y in multiset(s[1..]);
        }
      }
      SortedDescCons(s[0], t);
    }
  }

  /** The sorted pending list is in descending time order and holds the same requests. */
  lemma {:induction false} SortByTimeDescSpec(s: seq<Request>)
    ensures SortedByTimeDesc(SortByTimeDesc(s))
    ensures multiset(SortByTimeDesc(s)) == multiset(s)
  {
    if s != [] {
      assert s == [s[0]] + s[1..];
      SortByTimeDescSpec(s[1..]);
      InsertByTimeSorted(s[0], SortByTimeDesc(s[1..]));
      InsertByTimeMultiset(s[0], SortByTimeDesc(s[1..]));
    }
  }
}
